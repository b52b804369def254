/** Correlating verses and audio files by their `<chapter>.<verse>` pair:
    the sort key `sort_by_chapter_verse` computes from a file name with the
    regular expression `(\d+)\.(\d+)`, and the choice of the audio file for
    a verse in `find_corresponding_audio`. */
module AudioMatch {
  import opened Wrappers
  import opened Strings
  import opened Corpus

  /** `os.path.basename` on a POSIX path: what follows the last `/`. */
  function Basename(path: string): (r: string)
    ensures |r| <= |path|
  {
    if path == [] || path[|path| - 1] == '/' then []
    else Basename(path[..|path| - 1]) + [path[|path| - 1]]
  }

  /** The base name is the last path component: a suffix of the path, free
      of slashes, that starts the path or follows a slash. */
  lemma {:induction false} BasenameIsLastComponent(path: string)
    ensures var r := Basename(path);
      r == path[|path| - |r|..]
      && (forall i :: 0 <= i < |r| ==> r[i] != '/')
      && (|r| < |path| ==> path[|path| - |r| - 1] == '/')
  {
    if path != [] && path[|path| - 1] != '/' {
      var p := path[..|path| - 1];
      BasenameIsLastComponent(p);
      var q := Basename(p);
      assert path[|path| - |q| - 1..] == p[|p| - |q|..] + [path[|path| - 1]];
    }
  }

  // ---------------------------------------------------------------- re.search(r'(\d+)\.(\d+)', name)

  /** The end of the run of digits that starts at `i`. */
  function RunEnd(s: string, i: nat): (j: nat)
    requires i <= |s|
    ensures i <= j <= |s|
    ensures forall k :: i <= k < j ==> IsDigit(s[k])
    ensures j == |s| || !IsDigit(s[j])
    decreases |s| - i
  {
    if i < |s| && IsDigit(s[i]) then RunEnd(s, i + 1) else i
  }

  /** The pattern matches when tried at position `i`. The greedy `\d+`
      can only stop at the end of its run, since a digit is never a dot. */
  predicate MatchAt(s: string, i: int) {
    0 <= i < |s| && IsDigit(s[i])
    && var j := RunEnd(s, i); j + 1 < |s| && s[j] == '.' && IsDigit(s[j + 1])
  }

  /** `(int(group(1)), int(group(2)))` of the match at `i`. */
  function Groups(s: string, i: int): (nat, nat)
    requires MatchAt(s, i)
  {
    var j := RunEnd(s, i);
    (DecimalValue(s[i..j]), DecimalValue(s[j + 1..RunEnd(s, j + 1)]))
  }

  /** `re.search` from position `i`: tries each position in turn. */
  function Search(s: string, i: nat): (r: Option<(nat, nat)>)
    requires i <= |s|
    decreases |s| - i
  {
    if i == |s| then None
    else if MatchAt(s, i) then Some(Groups(s, i))
    else Search(s, i + 1)
  }

  /** The search finds something exactly when the pattern matches somewhere,
      and then reports the groups of the leftmost match. */
  lemma {:induction false} SearchFindsLeftmost(s: string, i: nat)
    requires i <= |s|
    ensures Search(s, i).Some? <==> exists k :: i <= k < |s| && MatchAt(s, k)
    ensures Search(s, i).Some? ==>
      exists k :: i <= k < |s| && MatchAt(s, k) && Search(s, i).value == Groups(s, k)
                  && forall m :: i <= m < k ==> !MatchAt(s, m)
    decreases |s| - i
  {
    if i < |s| && !MatchAt(s, i) {
      SearchFindsLeftmost(s, i + 1);
      if Search(s, i).Some? {
        var k :| i + 1 <= k < |s| && MatchAt(s, k) && Search(s, i).value == Groups(s, k)
                 && forall m :: i + 1 <= m < k ==> !MatchAt(s, m);
        assert forall m :: i <= m < k ==> !MatchAt(s, m);
      }
    }
  }

  /** A match at `k` with none before it, from `i` on, is what the search reports. */
  lemma {:induction false} SearchReportsFirst(s: string, i: nat, k: nat)
    requires i <= k < |s| && MatchAt(s, k)
    requires forall m :: i <= m < k ==> !MatchAt(s, m)
    ensures Search(s, i) == Some(Groups(s, k))
    decreases k - i
  {
    if i < k {
      SearchReportsFirst(s, i + 1, k);
    }
  }

  const Unmatched: (nat, nat) := (999, 999)

  /** `sort_by_chapter_verse(file_path)`. */
  function SortKey(path: string): (nat, nat) {
    match Search(Basename(path), 0)
    case Some(key) => key
    case None => Unmatched
  }

  /** A file whose base name holds no `<digits>.<digit>` sorts last. */
  lemma UnmatchedSortsLast(path: string)
    requires forall k :: 0 <= k < |Basename(path)| ==> !MatchAt(Basename(path), k)
    ensures SortKey(path) == Unmatched
  {
    SearchFindsLeftmost(Basename(path), 0);
  }

  /** A name without a slash is its own base name. */
  lemma {:induction false} BasenameOfName(name: string)
    requires forall i :: 0 <= i < |name| ==> name[i] != '/'
    ensures Basename(name) == name
  {
    if name != [] {
      BasenameOfName(name[..|name| - 1]);
      assert name == name[..|name| - 1] + [name[|name| - 1]];
    }
  }

  /** A run of digits ends where the digits stop. */
  lemma {:induction false} RunEndAt(s: string, i: nat, j: nat)
    requires i <= j <= |s|
    requires forall k :: i <= k < j ==> IsDigit(s[k])
    requires j == |s| || !IsDigit(s[j])
    ensures RunEnd(s, i) == j
    decreases j - i
  {
    if i < j {
      RunEndAt(s, i + 1, j);
    }
  }

  /** Where a run of digits `[i, j)`, a dot and a run `[j + 1, e)` stand,
      with no digit after them, the pattern matches at `i` and its groups
      are those two runs. */
  lemma ReadsRunsAt(s: string, i: nat, j: nat, e: nat)
    requires i < j && j + 1 < e <= |s|
    requires forall k :: i <= k < j ==> IsDigit(s[k])
    requires s[j] == '.'
    requires forall k :: j + 1 <= k < e ==> IsDigit(s[k])
    requires e == |s| || !IsDigit(s[e])
    ensures MatchAt(s, i) && Groups(s, i) == (DecimalValue(s[i..j]), DecimalValue(s[j + 1..e]))
  {
    RunEndAt(s, i, j);
    RunEndAt(s, j + 1, e);
  }

  /** Where `<c>.<v>` stands with no digit after it, the pattern matches there
      and reads exactly `c` and `v`. */
  lemma ReadsPairAt(s: string, i: nat, pat: string, c: nat, v: nat)
    requires pat == DecimalDigits(c) + "." + DecimalDigits(v)
    requires OccursAt(s, pat, i)
    requires i + |pat| == |s| || !IsDigit(s[i + |pat|])
    ensures MatchAt(s, i) && Groups(s, i) == (c, v)
  {
    var dc, dv := DecimalDigits(c), DecimalDigits(v);
    var j, e := i + |dc|, i + |dc| + 1 + |dv|;
    assert e <= |s| && s[i..j] == dc && s[j] == '.' && s[j + 1..e] == dv by {
      SplitOccurrence(s, i, dc, dv);
    }
    assert (forall k :: i <= k < j ==> IsDigit(s[k])) && (forall k :: j + 1 <= k < e ==> IsDigit(s[k])) by {
      DigitsRun(s, i, j, dc);
      DigitsRun(s, j + 1, e, dv);
    }
    ReadsRunsAt(s, i, j, e);
    DecimalRoundTrip(c);
    DecimalRoundTrip(v);
  }

  /** An occurrence of `a + "." + b` splits into its three parts. */
  lemma SplitOccurrence(s: string, i: nat, a: string, b: string)
    requires OccursAt(s, a + "." + b, i)
    ensures i + |a| + 1 + |b| <= |s|
    ensures s[i..i + |a|] == a && s[i + |a|] == '.' && s[i + |a| + 1..i + |a| + 1 + |b|] == b
  {
    var t := s[i..i + |a| + 1 + |b|];
    assert t == a + "." + b;
    assert s[i..i + |a|] == t[..|a|];
    assert s[i + |a| + 1..i + |a| + 1 + |b|] == t[|a| + 1..];
    assert s[i + |a|] == t[|a|];
  }

  /** A slice made of digits is a run of digits in the whole string. */
  lemma DigitsRun(s: string, i: nat, j: nat, d: string)
    requires i <= j <= |s| && s[i..j] == d
    requires forall k :: 0 <= k < |d| ==> IsDigit(d[k])
    ensures forall k :: i <= k < j ==> IsDigit(s[k])
  {
    forall k | i <= k < j ensures IsDigit(s[k]) {
      assert s[k] == d[k - i];
    }
  }

  /** A file named after the convention `<prefix><c>.<v><suffix>`, with no
      digit and no slash in the prefix, no slash in the suffix and no digit
      starting it, sorts under `(c, v)`. */
  lemma ConventionalNameKey(prefix: string, c: nat, v: nat, suffix: string)
    requires forall i :: 0 <= i < |prefix| ==> !IsDigit(prefix[i]) && prefix[i] != '/'
    requires forall i :: 0 <= i < |suffix| ==> suffix[i] != '/'
    requires suffix == [] || !IsDigit(suffix[0])
    ensures SortKey(prefix + VersePattern(Num(c), Num(v)) + suffix) == (c, v)
  {
    var pat := VersePattern(Num(c), Num(v));
    assert pat == DecimalDigits(c) + "." + DecimalDigits(v) by {
      KeyTextOfNumber(c);
      KeyTextOfNumber(v);
    }
    var name := prefix + pat + suffix;
    assert forall i :: 0 <= i < |name| ==> name[i] != '/' by {
      NoSlashInConventionalName(prefix, pat, suffix, c, v);
    }
    assert MatchAt(name, |prefix|) && Groups(name, |prefix|) == (c, v) by {
      PatternBetween(prefix, pat, suffix);
      ReadsPairAt(name, |prefix|, pat, c, v);
    }
    assert forall m :: 0 <= m < |prefix| ==> !MatchAt(name, m) by {
      NoMatchInPrefix(prefix, pat, suffix);
    }
    FirstMatchIsKey(name, |prefix|);
  }

  /** A file name without a slash sorts under the groups of its first match. */
  lemma FirstMatchIsKey(name: string, k: nat)
    requires forall i :: 0 <= i < |name| ==> name[i] != '/'
    requires k < |name| && MatchAt(name, k)
    requires forall m :: 0 <= m < k ==> !MatchAt(name, m)
    ensures SortKey(name) == Groups(name, k)
  {
    BasenameOfName(name);
    SearchReportsFirst(name, 0, k);
  }

  /** The middle part of `prefix + pat + suffix` occurs right after the
      prefix, and no digit follows it when the suffix does not start with one. */
  lemma PatternBetween(prefix: string, pat: string, suffix: string)
    requires suffix == [] || !IsDigit(suffix[0])
    ensures OccursAt(prefix + pat + suffix, pat, |prefix|)
    ensures var name := prefix + pat + suffix;
      |prefix| + |pat| == |name| || !IsDigit(name[|prefix| + |pat|])
  {
    var name := prefix + pat + suffix;
    assert name[|prefix|..|prefix| + |pat|] == pat;
    if suffix != [] {
      assert name[|prefix| + |pat|] == suffix[0];
    }
  }

  /** No match can start inside a prefix that holds no digit. */
  lemma NoMatchInPrefix(prefix: string, pat: string, suffix: string)
    requires forall i :: 0 <= i < |prefix| ==> !IsDigit(prefix[i])
    ensures forall m :: 0 <= m < |prefix| ==> !MatchAt(prefix + pat + suffix, m)
  {
    forall m | 0 <= m < |prefix| ensures !MatchAt(prefix + pat + suffix, m) {
      assert (prefix + pat + suffix)[m] == prefix[m];
    }
  }

  lemma NoSlashInConventionalName(prefix: string, pat: string, suffix: string, c: nat, v: nat)
    requires pat == DecimalDigits(c) + "." + DecimalDigits(v)
    requires forall i :: 0 <= i < |prefix| ==> prefix[i] != '/'
    requires forall i :: 0 <= i < |suffix| ==> suffix[i] != '/'
    ensures forall i :: 0 <= i < |prefix + pat + suffix| ==> (prefix + pat + suffix)[i] != '/'
  {
    var dc := DecimalDigits(c);
    forall i | 0 <= i < |pat| ensures pat[i] != '/' {
      if i < |dc| {
        assert pat[i] == dc[i];
      } else if i > |dc| {
        assert pat[i] == DecimalDigits(v)[i - |dc| - 1];
      }
    }
  }

  // ---------------------------------------------------------------- find_corresponding_audio

  /** The text `f"{key}"` produces. */
  function KeyText(k: Key): string {
    match k
    case Num(n) => FormatInt(n, 0)
    case Str(t) => t
  }

  /** Python truthiness of `verse_data.get(...)`: absent, `0` and `""` are false. */
  predicate Truthy(k: Option<Key>) {
    k.Some? && match k.value
               case Num(n) => n != 0
               case Str(t) => t != ""
  }

  /** `f"{chapter}.{verse}"`. */
  function VersePattern(chapter: Key, verse: Key): string {
    KeyText(chapter) + "." + KeyText(verse)
  }

  /** The test as written: `pattern in filename`. */
  predicate NameMatchesAsWritten(name: string, pattern: string) {
    Contains(name, pattern)
  }

  /** The pattern occurs at `i` and is not part of a longer number. */
  predicate BoundedAt(name: string, pattern: string, i: int) {
    OccursAt(name, pattern, i)
    && (i == 0 || !IsDigit(name[i - 1]))
    && (i + |pattern| == |name| || !IsDigit(name[i + |pattern|]))
  }

  /** The corrected test: the pattern occurs with no digit on either side. */
  predicate NameMatches(name: string, pattern: string) {
    exists i | 0 <= i <= |name| - |pattern| :: BoundedAt(name, pattern, i)
  }

  /** `f"{n}"` for a chapter or verse number. */
  lemma KeyTextOfNumber(n: nat)
    ensures KeyText(Num(n)) == DecimalDigits(n)
  {
  }

  /** The patterns of verses 2.4 and 2.47. */
  lemma PatternsOfExample()
    ensures VersePattern(Num(2), Num(4)) == "2.4"
    ensures VersePattern(Num(2), Num(47)) == "2.47"
  {
    KeyTextOfNumber(2);
    KeyTextOfNumber(4);
    KeyTextOfNumber(47);
    assert DecimalDigits(47) == DecimalDigits(4) + [DigitChar(7)];
  }

  /** "2.4" occurs in "2.47.mp3" only at its start, where a digit follows. */
  lemma OnlyOccurrenceIsUnbounded()
    ensures OccursAt("2.47.mp3", "2.4", 0)
    ensures !NameMatches("2.47.mp3", "2.4")
  {
    var name := "2.47.mp3";
    assert name[..3] == "2.4";
    forall i | 0 <= i <= |name| - 3 ensures !BoundedAt(name, "2.4", i) {
      if i == 0 {
        assert name[3] == '7';
      } else {
        assert name[i..i + 3][0] == name[i];
        assert name[i] != '2' by {
          assert name[1] == '.' && name[2] == '4' && name[3] == '7' && name[4] == '.' && name[5] == 'm';
        }
      }
    }
  }

  /** The substring test takes the file of verse 2.47 for verse 2.4 (a file
      whose own sort key says 2.47); the bounded test does not. */
  lemma SubstringMatchConfusesVerses()
    ensures VersePattern(Num(2), Num(4)) == "2.4"
    ensures NameMatchesAsWritten("2.47.mp3", "2.4")
    ensures SortKey("2.47.mp3") == (2, 47)
    ensures !NameMatches("2.47.mp3", "2.4")
  {
    PatternsOfExample();
    OnlyOccurrenceIsUnbounded();
    SortKeyOfExample();
  }

  /** `2.47.mp3` sorts under (2, 47). */
  lemma SortKeyOfExample()
    ensures SortKey("2.47.mp3") == (2, 47)
  {
    var suffix := ".mp3";
    assert suffix[0] == '.';
    ConventionalNameKey("", 2, 47, suffix);
    assert VersePattern(Num(2), Num(47)) == "2.47" by {
      PatternsOfExample();
    }
    assert "" + "2.47" + suffix == "2.47.mp3";
  }

  /** A bounded occurrence of the pattern of chapter c, verse v is a match
      of the sort-key expression that reads exactly (c, v): the corrected
      test cannot take one verse for another. */
  lemma BoundedMatchReadsExactNumbers(name: string, c: nat, v: nat, i: int)
    requires BoundedAt(name, VersePattern(Num(c), Num(v)), i)
    ensures MatchAt(name, i) && Groups(name, i) == (c, v)
  {
    KeyTextOfNumber(c);
    KeyTextOfNumber(v);
    ReadsPairAt(name, i, VersePattern(Num(c), Num(v)), c, v);
  }

  /** The corrected test still accepts every file named after the convention. */
  lemma ConventionalNameMatches(prefix: string, c: nat, v: nat, suffix: string)
    requires prefix == [] || !IsDigit(prefix[|prefix| - 1])
    requires suffix == [] || !IsDigit(suffix[0])
    ensures NameMatches(prefix + VersePattern(Num(c), Num(v)) + suffix, VersePattern(Num(c), Num(v)))
  {
    var pat := VersePattern(Num(c), Num(v));
    KeyTextOfNumber(c);
    KeyTextOfNumber(v);
    var name := prefix + pat + suffix;
    PatternBetween(prefix, pat, suffix);
    assert BoundedAt(name, pat, |prefix|);
  }

  /** `k` is the first file whose base name matches. */
  predicate FirstMatch(files: seq<string>, pattern: string, k: int) {
    0 <= k < |files| && NameMatches(Basename(files[k]), pattern)
    && forall m :: 0 <= m < k ==> !NameMatches(Basename(files[m]), pattern)
  }

  /** `find_corresponding_audio`: the index of the file to load, if any.
      Uses the bounded test (see `NameMatchesAsWritten` for the source's). */
  method FindCorrespondingAudio(chapter: Option<Key>, verse: Option<Key>, files: seq<string>)
    returns (r: Option<nat>)
    ensures r.Some? ==> Truthy(chapter) && Truthy(verse)
                        && FirstMatch(files, VersePattern(chapter.value, verse.value), r.value)
    ensures r.None? && Truthy(chapter) && Truthy(verse) ==>
              forall m :: 0 <= m < |files| ==> !NameMatches(Basename(files[m]), VersePattern(chapter.value, verse.value))
  {
    if files == [] || !Truthy(chapter) || !Truthy(verse) {
      return None;
    }
    var pattern := VersePattern(chapter.value, verse.value);
    var i := 0;
    while i < |files|
      invariant 0 <= i <= |files|
      invariant forall m :: 0 <= m < i ==> !NameMatches(Basename(files[m]), pattern)
    {
      if NameMatches(Basename(files[i]), pattern) {
        return Some(i);
      }
      i := i + 1;
    }
    return None;
  }
}
