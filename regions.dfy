/** The `tagged_regions` dictionary that tagger_2's `draw_tagged_regions`
    rebuilds on every redraw: label to `(start, end)`. The verse's segments
    are entered first, a later one overwriting an earlier one of the same
    label; then the legacy word timestamps fill in only the words no
    segment has claimed. Drawing itself is left out; what remains is which
    region each label gets. */
module Regions {
  import opened Wrappers
  import opened Corpus
  import opened TimeUnits

  type RegionMap = map<string, (real, real)>

  /** `segment.get('type', 'word')`. */
  function SegmentType(s: SegmentRecord): string {
    s.kind.GetOr(DefaultTag)
  }

  /** The types with an entry in `color_index`; any other raises `KeyError`. */
  predicate KnownType(t: string) {
    t == "word" || t == "line"
  }

  /** A segment that gets a region: not empty in time, and labelled. */
  predicate Drawable(s: SegmentRecord) {
    s.start != s.end && s.name != ""
  }

  /** The regions after the segments loop, and whether the loop ran to its
      end (`ok`) or stopped on the `KeyError` of an unknown type, raised
      just after that segment's region was stored. */
  datatype Pass = Pass(regions: RegionMap, ok: bool)

  function SegmentPass(segs: seq<SegmentRecord>): Pass
    decreases |segs|
  {
    if segs == [] then Pass(map[], true)
    else
      var p := SegmentPass(segs[..|segs| - 1]);
      var s := segs[|segs| - 1];
      if !p.ok || !Drawable(s) then p
      else Pass(p.regions[s.name := (s.start, s.end)], KnownType(SegmentType(s)))
  }

  /** A legacy timestamp that gets a region: both ends set and different
      (compared before the unit inference), read with the unit inference. */
  function LegacyRegion(e: WordEntry): (r: Option<(real, real)>)
    ensures r.Some? <==> e.timestamp.Some? && e.timestamp.value.start.Some? && e.timestamp.value.end.Some?
                         && e.timestamp.value.start.value != e.timestamp.value.end.value
    ensures r.Some? ==> r.value == LegacyPairToSeconds(e.timestamp.value.start.value, e.timestamp.value.end.value)
  {
    match e.timestamp
    case Some(Timestamp(Some(s), Some(t))) => if s != t then Some(LegacyPairToSeconds(s, t)) else None
    case _ => None
  }

  /** The legacy loop over the synonyms, in dictionary order. */
  function LegacyPass(syn: seq<(string, WordEntry)>, m: RegionMap): RegionMap
    decreases |syn|
  {
    if syn == [] then m
    else
      var r := LegacyPass(syn[..|syn| - 1], m);
      var w := syn[|syn| - 1];
      if LegacyRegion(w.1).None? || w.0 in r then r else r[w.0 := LegacyRegion(w.1).value]
  }

  /** `tagged_regions` after a redraw of the verse. */
  function TaggedRegions(v: Verse): RegionMap {
    var p := SegmentPass(v.segments);
    if p.ok then LegacyPass(v.synonyms, p.regions) else p.regions
  }

  /** After a full segments loop, a label has a region exactly when some
      drawable segment carries it, and the region is that of the last such
      segment. */
  lemma {:induction false} LastSegmentWins(segs: seq<SegmentRecord>, k: int)
    requires SegmentPass(segs).ok
    requires 0 <= k < |segs| && Drawable(segs[k])
    requires forall j :: k < j < |segs| ==> !(Drawable(segs[j]) && segs[j].name == segs[k].name)
    ensures segs[k].name in SegmentPass(segs).regions
    ensures SegmentPass(segs).regions[segs[k].name] == (segs[k].start, segs[k].end)
    decreases |segs|
  {
    var p := segs[..|segs| - 1];
    PassOkPrefix(segs);
    if k < |segs| - 1 {
      forall j | k < j < |p| ensures !(Drawable(p[j]) && p[j].name == p[k].name) {
        assert p[j] == segs[j];
      }
      assert p[k] == segs[k];
      LastSegmentWins(p, k);
    }
  }

  /** A full segments loop had full loops on every prefix. */
  lemma PassOkPrefix(segs: seq<SegmentRecord>)
    requires segs != [] && SegmentPass(segs).ok
    ensures SegmentPass(segs[..|segs| - 1]).ok
  {
  }

  /** Only labels of drawable segments get regions from the segments loop. */
  lemma {:induction false} SegmentRegionsFromSegments(segs: seq<SegmentRecord>, w: string)
    requires w in SegmentPass(segs).regions
    ensures exists k :: 0 <= k < |segs| && Drawable(segs[k]) && segs[k].name == w
    decreases |segs|
  {
    var p := segs[..|segs| - 1];
    var s := segs[|segs| - 1];
    if w in SegmentPass(p).regions {
      SegmentRegionsFromSegments(p, w);
      var k :| 0 <= k < |p| && Drawable(p[k]) && p[k].name == w;
      assert segs[k] == p[k];
    }
  }

  /** The legacy loop never overrides a region already present. */
  lemma {:induction false} LegacyKeeps(syn: seq<(string, WordEntry)>, m: RegionMap, w: string)
    requires w in m
    ensures w in LegacyPass(syn, m) && LegacyPass(syn, m)[w] == m[w]
    decreases |syn|
  {
    if syn != [] {
      LegacyKeeps(syn[..|syn| - 1], m, w);
    }
  }

  /** The legacy loop gives a word its timestamp's region when the word has
      no region yet (dictionary words being distinct). */
  lemma {:induction false} LegacyFills(syn: seq<(string, WordEntry)>, m: RegionMap, i: int)
    requires DistinctWords(syn)
    requires 0 <= i < |syn| && syn[i].0 !in m && LegacyRegion(syn[i].1).Some?
    ensures syn[i].0 in LegacyPass(syn, m)
    ensures LegacyPass(syn, m)[syn[i].0] == LegacyRegion(syn[i].1).value
    decreases |syn|
  {
    var p := syn[..|syn| - 1];
    if i == |syn| - 1 {
      LegacyAbsent(p, m, syn[i].0);
    } else {
      assert DistinctWords(p) by {
        forall a, b | 0 <= a < b < |p| ensures p[a].0 != p[b].0 {
          assert p[a] == syn[a] && p[b] == syn[b];
        }
      }
      assert p[i] == syn[i];
      LegacyFills(p, m, i);
      LegacyKeeps([syn[|syn| - 1]], LegacyPass(p, m), syn[i].0);
      assert syn[|syn| - 1].0 != syn[i].0;
    }
  }

  /** A word that is not a key of the dictionary gets no region from it. */
  lemma {:induction false} LegacyAbsent(syn: seq<(string, WordEntry)>, m: RegionMap, w: string)
    requires w !in m
    requires forall i :: 0 <= i < |syn| ==> syn[i].0 != w
    ensures w !in LegacyPass(syn, m)
    decreases |syn|
  {
    if syn != [] {
      LegacyAbsent(syn[..|syn| - 1], m, w);
    }
  }

  /** In the redraw, a labelled segment's region beats the legacy timestamp
      of the word of the same name, and the last such segment is the one
      that counts. */
  lemma SegmentsWinOverLegacy(v: Verse, k: int)
    requires SegmentPass(v.segments).ok
    requires 0 <= k < |v.segments| && Drawable(v.segments[k])
    requires forall j :: k < j < |v.segments| ==> !(Drawable(v.segments[j]) && v.segments[j].name == v.segments[k].name)
    ensures v.segments[k].name in TaggedRegions(v)
    ensures TaggedRegions(v)[v.segments[k].name] == (v.segments[k].start, v.segments[k].end)
  {
    LastSegmentWins(v.segments, k);
    LegacyKeeps(v.synonyms, SegmentPass(v.segments).regions, v.segments[k].name);
  }

  /** After a commit appends a segment of a known type to a verse whose
      segments all drew, the redraw gives the new label the new region. */
  lemma AppendedSegmentIsDrawn(v: Verse, seg: SegmentRecord)
    requires SegmentPass(v.segments).ok
    requires Drawable(seg) && KnownType(SegmentType(seg))
    ensures var w := v.(segments := v.segments + [seg]);
      seg.name in TaggedRegions(w) && TaggedRegions(w)[seg.name] == (seg.start, seg.end)
  {
    var w := v.(segments := v.segments + [seg]);
    assert w.segments[..|w.segments| - 1] == v.segments;
    SegmentsWinOverLegacy(w, |w.segments| - 1);
  }

  /** In the redraw, a word no drawable segment is labelled with gets the
      region of its legacy timestamp. */
  lemma LegacyFillsUnclaimedWord(v: Verse, i: int)
    requires SegmentPass(v.segments).ok && DistinctWords(v.synonyms)
    requires 0 <= i < |v.synonyms| && LegacyRegion(v.synonyms[i].1).Some?
    requires forall k :: 0 <= k < |v.segments| ==> !(Drawable(v.segments[k]) && v.segments[k].name == v.synonyms[i].0)
    ensures v.synonyms[i].0 in TaggedRegions(v)
    ensures TaggedRegions(v)[v.synonyms[i].0] == LegacyRegion(v.synonyms[i].1).value
  {
    if v.synonyms[i].0 in SegmentPass(v.segments).regions {
      SegmentRegionsFromSegments(v.segments, v.synonyms[i].0);
    }
    LegacyFills(v.synonyms, SegmentPass(v.segments).regions, i);
  }

  /** A segment of a type with no colour stops the loop: the segments after
      it and all legacy timestamps get no region. */
  lemma UnknownTypeStopsDrawing()
    ensures var a := SegmentRecord(0.0, 1.0, "a", Some("phrase"), None, None);
            var b := SegmentRecord(1.0, 2.0, "b", Some("word"), None, None);
            var v := Verse(None, None, [("c", WordEntry("", None, Some(Timestamp(Some(2.0), Some(3.0)))))], [a, b]);
            TaggedRegions(v) == map["a" := (0.0, 1.0)]
  {
    var a := SegmentRecord(0.0, 1.0, "a", Some("phrase"), None, None);
    var b := SegmentRecord(1.0, 2.0, "b", Some("word"), None, None);
    assert [a, b][..1] == [a];
    assert [a][..0] == [];
    assert SegmentPass([a]) == Pass(map["a" := (0.0, 1.0)], false);
    assert SegmentPass([a, b]) == SegmentPass([a]);
  }

  /** The two loops of `draw_tagged_regions`, as the source runs them. */
  method CollectRegions(v: Verse) returns (regions: RegionMap)
    ensures regions == TaggedRegions(v)
  {
    regions := map[];
    var ok := true;
    var i := 0;
    while i < |v.segments| && ok
      invariant 0 <= i <= |v.segments|
      invariant SegmentPass(v.segments[..i]) == Pass(regions, ok)
      invariant !ok ==> SegmentPass(v.segments) == Pass(regions, ok)
    {
      var s := v.segments[i];
      assert v.segments[..i + 1][..i] == v.segments[..i];
      if Drawable(s) {
        regions := regions[s.name := (s.start, s.end)];
        ok := KnownType(SegmentType(s));
      }
      i := i + 1;
      if !ok {
        StoppedPassIsFinal(v.segments, i);
      }
    }
    if !ok {
      return;
    }
    assert v.segments[..i] == v.segments;
    var j := 0;
    while j < |v.synonyms|
      invariant 0 <= j <= |v.synonyms|
      invariant regions == LegacyPass(v.synonyms[..j], SegmentPass(v.segments).regions)
    {
      var word, data := v.synonyms[j].0, v.synonyms[j].1;
      assert v.synonyms[..j + 1][..j] == v.synonyms[..j];
      var r := LegacyRegion(data);
      if r.Some? && word !in regions {
        regions := regions[word := r.value];
      }
      j := j + 1;
    }
    assert v.synonyms[..j] == v.synonyms;
  }

  /** Once the loop has stopped on a prefix, the rest of the segments change nothing. */
  lemma {:induction false} StoppedPassIsFinal(segs: seq<SegmentRecord>, i: int)
    requires 0 <= i <= |segs| && !SegmentPass(segs[..i]).ok
    ensures SegmentPass(segs) == SegmentPass(segs[..i])
    decreases |segs| - i
  {
    if i < |segs| {
      assert segs[..i + 1][..i] == segs[..i];
      StoppedPassIsFinal(segs, i + 1);
    } else {
      assert segs[..i] == segs;
    }
  }
}
