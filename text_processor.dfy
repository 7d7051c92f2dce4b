/** process_file_text (src/duplifinder/text_processor.py and the two-result
    copy in build/lib/duplifinder/processors.py): every line of a file is
    searched for every pattern, and each hit files "path:lineno" under the
    pattern's source text. */
module TextProcessor {
  import opened Common
  import opened Strings
  import MultiMap
  import opened Paths

  /** `str(py_file)`, `py_file.name`, and the lines `readlines()` gives, or
      None when opening or reading raises. */
  datatype TextFile = TextFile(path: string, name: string, lines: Option<seq<string>>)

  /** (matches, skipped file or None, total_lines). */
  datatype TextResult = TextResult(matches: map<string, seq<string>>, skipped: Option<string>, totalLines: nat)

  /** The hits of line `n` for the patterns in order: (pattern, location)
      for each pattern found in the line. `search(pat, line)` stands for
      `re.compile(pat).search(line)` being truthy. */
  function LineHits(path: string, n: LineNo, line: string, pats: seq<string>, search: (string, string) -> bool): (r: seq<(string, string)>)
    ensures |r| <= |pats|
  {
    if pats == [] then []
    else
      var p := pats[|pats| - 1];
      LineHits(path, n, line, pats[..|pats| - 1], search) + (if search(p, line) then [(p, Location(path, n))] else [])
  }

  /** The hits of the whole file, line after line. */
  function Hits(path: string, lines: seq<string>, pats: seq<string>, search: (string, string) -> bool): seq<(string, string)> {
    if lines == [] then []
    else Hits(path, lines[..|lines| - 1], pats, search) + LineHits(path, |lines|, lines[|lines| - 1], pats, search)
  }

  /** What process_file_text returns for a file. */
  function ProcessText(file: TextFile, pats: seq<string>, excludePatterns: seq<string>, glob: (string, string) -> bool, search: (string, string) -> bool): (r: TextResult)
    ensures r.skipped.Some? <==> ExcludedFile(file.name, excludePatterns, glob) || file.lines.None?
    ensures r.skipped.Some? ==> r.skipped == Some(file.path) && r.matches == map[] && r.totalLines == 0
    ensures r.skipped.None? ==> r.totalLines == |file.lines.value|
  {
    if ExcludedFile(file.name, excludePatterns, glob) || file.lines.None? then TextResult(map[], Some(file.path), 0)
    else TextResult(MultiMap.AppendAll(map[], Hits(file.path, file.lines.value, pats, search)), None, |file.lines.value|)
  }

  /** The inner loop (lines 30-32) for line `n`: appends the line's hits. */
  method SearchLine(matches: map<string, seq<string>>, path: string, n: LineNo, line: string, pats: seq<string>, search: (string, string) -> bool)
    returns (r: map<string, seq<string>>)
    ensures r == MultiMap.AppendAll(matches, LineHits(path, n, line, pats, search))
  {
    r := matches;
    var j := 0;
    assert pats[..0] == [];
    while j < |pats|
      invariant 0 <= j <= |pats|
      invariant r == MultiMap.AppendAll(matches, LineHits(path, n, line, pats[..j], search))
    {
      ghost var sofar := LineHits(path, n, line, pats[..j], search);
      assert pats[..j + 1][..j] == pats[..j];
      if search(pats[j], line) {
        assert LineHits(path, n, line, pats[..j + 1], search) == sofar + [(pats[j], Location(path, n))];
        MultiMap.AppendAllSnoc(matches, sofar, pats[j], Location(path, n));
        r := MultiMap.Append(r, pats[j], Location(path, n));
      } else {
        assert LineHits(path, n, line, pats[..j + 1], search) == sofar + [];
        assert sofar + [] == sofar;
      }
      j := j + 1;
    }
    assert pats[..j] == pats;
  }

  /** process_file_text (lines 14-39): the exclude check, reading, and the
      nested loops over lines and patterns. */
  method ProcessFileText(file: TextFile, pats: seq<string>, excludePatterns: seq<string>, glob: (string, string) -> bool, search: (string, string) -> bool)
    returns (r: TextResult)
    ensures r == ProcessText(file, pats, excludePatterns, glob, search)
  {
    var e := 0;
    while e < |excludePatterns|
      invariant 0 <= e <= |excludePatterns|
      invariant forall q :: 0 <= q < e ==> !glob(file.name, excludePatterns[q])
    {
      if glob(file.name, excludePatterns[e]) {
        assert ExcludedFile(file.name, excludePatterns, glob);
        return TextResult(map[], Some(file.path), 0);
      }
      e := e + 1;
    }
    assert !ExcludedFile(file.name, excludePatterns, glob);
    if file.lines.None? {
      return TextResult(map[], Some(file.path), 0);
    }
    var lines := file.lines.value;
    ghost var empty: map<string, seq<string>> := map[];
    var matches: map<string, seq<string>> := map[];
    var i := 0;
    assert lines[..0] == [];
    while i < |lines|
      invariant 0 <= i <= |lines|
      invariant matches == MultiMap.AppendAll(empty, Hits(file.path, lines[..i], pats, search))
    {
      ghost var done := Hits(file.path, lines[..i], pats, search);
      matches := SearchLine(matches, file.path, i + 1, lines[i], pats, search);
      MultiMap.AppendAllConcat(empty, done, LineHits(file.path, i + 1, lines[i], pats, search));
      assert lines[..i + 1][..i] == lines[..i];
      i := i + 1;
    }
    assert lines[..i] == lines;
    r := TextResult(matches, None, |lines|);
  }

  /** The older build's process_file_text (build/lib/duplifinder/processors.py,
      lines 57-76): the same matching without the line count. */
  method ProcessFileTextLegacy(file: TextFile, pats: seq<string>, excludePatterns: seq<string>, glob: (string, string) -> bool, search: (string, string) -> bool)
    returns (matches: map<string, seq<string>>, skipped: Option<string>)
    ensures matches == ProcessText(file, pats, excludePatterns, glob, search).matches
    ensures skipped == ProcessText(file, pats, excludePatterns, glob, search).skipped
  {
    var r := ProcessFileText(file, pats, excludePatterns, glob, search);
    matches, skipped := r.matches, r.skipped;
  }

  // ---------------------------------------------------------------------
  // What the matches mean.

  /** The 1-based numbers of the lines in which `p` is found, in order. */
  function MatchingLines(lines: seq<string>, p: string, search: (string, string) -> bool): (r: seq<LineNo>)
    ensures |r| <= |lines|
    ensures forall i :: 0 <= i < |r| ==> r[i] <= |lines| && search(p, lines[r[i] - 1])
    ensures forall n :: 1 <= n <= |lines| && search(p, lines[n - 1]) ==> n in r
    ensures forall i, j :: 0 <= i < j < |r| ==> r[i] < r[j]
  {
    if lines == [] then []
    else
      var init := lines[..|lines| - 1];
      var prev := MatchingLines(init, p, search);
      assert forall i :: 0 <= i < |init| ==> init[i] == lines[i];
      prev + (if search(p, lines[|lines| - 1]) then [|lines| as LineNo] else [])
  }

  /** The locations of a sequence of line numbers of one file. */
  function LocationsAt(path: string, ns: seq<LineNo>): (r: seq<string>)
    ensures |r| == |ns|
  {
    seq(|ns|, i requires 0 <= i < |ns| => Location(path, ns[i]))
  }

  /** `p` occurs at most once in the pattern list. */
  predicate AtMostOnce(pats: seq<string>, p: string) {
    forall i, j :: 0 <= i < |pats| && 0 <= j < |pats| && pats[i] == p && pats[j] == p ==> i == j
  }

  /** Line `n` files its location under `p` once when `p` is found in it. */
  lemma {:induction false} LineHitsSelect(path: string, n: LineNo, line: string, pats: seq<string>, search: (string, string) -> bool, p: string)
    requires AtMostOnce(pats, p)
    ensures MultiMap.Select(LineHits(path, n, line, pats, search), p)
      == if p in pats && search(p, line) then [Location(path, n)] else []
  {
    if pats != [] {
      var init := pats[..|pats| - 1];
      var last := pats[|pats| - 1];
      assert AtMostOnce(init, p);
      LineHitsSelect(path, n, line, init, search, p);
      var tail := if search(last, line) then [(last, Location(path, n))] else [];
      MultiMap.SelectConcat(LineHits(path, n, line, init, search), tail, p);
      assert p in pats <==> p in init || p == last by {
        assert pats == init + [last];
      }
      if p == last {
        assert p !in init;
      }
    }
  }

  /** Under a pattern listed once, the hits are the locations of the lines
      that contain it, in ascending line order; under an unlisted pattern
      there are none. */
  lemma {:induction false} HitsSelect(path: string, lines: seq<string>, pats: seq<string>, search: (string, string) -> bool, p: string)
    requires AtMostOnce(pats, p)
    ensures MultiMap.Select(Hits(path, lines, pats, search), p)
      == if p in pats then LocationsAt(path, MatchingLines(lines, p, search)) else []
  {
    if lines != [] {
      var init := lines[..|lines| - 1];
      HitsSelect(path, init, pats, search, p);
      LineHitsSelect(path, |lines|, lines[|lines| - 1], pats, search, p);
      HitsSelectStep(path, lines, pats, search, p);
    }
  }

  /** HitsSelect for a file from HitsSelect for all its lines but the last
      and LineHitsSelect for the last. */
  lemma HitsSelectStep(path: string, lines: seq<string>, pats: seq<string>, search: (string, string) -> bool, p: string)
    requires lines != []
    requires MultiMap.Select(Hits(path, lines[..|lines| - 1], pats, search), p)
      == if p in pats then LocationsAt(path, MatchingLines(lines[..|lines| - 1], p, search)) else []
    requires MultiMap.Select(LineHits(path, |lines|, lines[|lines| - 1], pats, search), p)
      == if p in pats && search(p, lines[|lines| - 1]) then [Location(path, |lines|)] else []
    ensures MultiMap.Select(Hits(path, lines, pats, search), p)
      == if p in pats then LocationsAt(path, MatchingLines(lines, p, search)) else []
  {
    var init := lines[..|lines| - 1];
    var n: LineNo := |lines|;
    var a := Hits(path, init, pats, search);
    var b := LineHits(path, n, lines[n - 1], pats, search);
    assert MultiMap.Select(Hits(path, lines, pats, search), p) == MultiMap.Select(a, p) + MultiMap.Select(b, p) by {
      assert Hits(path, lines, pats, search) == a + b;
      MultiMap.SelectConcat(a, b, p);
    }
    if p in pats {
      var prev := MatchingLines(init, p, search);
      var tail: seq<LineNo> := if search(p, lines[n - 1]) then [n] else [];
      assert LocationsAt(path, MatchingLines(lines, p, search)) == LocationsAt(path, prev) + LocationsAt(path, tail) by {
        assert MatchingLines(lines, p, search) == prev + tail;
        LocationsAtConcat(path, prev, tail);
      }
      assert LocationsAt(path, tail) == MultiMap.Select(b, p);
    } else {
      assert MultiMap.Select(a, p) + MultiMap.Select(b, p) == [];
    }
  }

  lemma LocationsAtConcat(path: string, a: seq<LineNo>, b: seq<LineNo>)
    ensures LocationsAt(path, a + b) == LocationsAt(path, a) + LocationsAt(path, b)
  {
  }

  /** Every hit is a listed pattern found in a line, at that line. */
  lemma {:induction false} HitsFrom(path: string, lines: seq<string>, pats: seq<string>, search: (string, string) -> bool)
    ensures forall k :: 0 <= k < |Hits(path, lines, pats, search)| ==>
      var h := Hits(path, lines, pats, search)[k];
      h.0 in pats && exists n: LineNo :: n <= |lines| && search(h.0, lines[n - 1]) && h.1 == Location(path, n)
  {
    if lines != [] {
      var init := lines[..|lines| - 1];
      HitsFrom(path, init, pats, search);
      LineHitsFrom(path, |lines|, lines[|lines| - 1], pats, search);
      var a := Hits(path, init, pats, search);
      var b := LineHits(path, |lines|, lines[|lines| - 1], pats, search);
      var hits: seq<(string, string)> := a + b;
      assert Hits(path, lines, pats, search) == hits;
      forall k | 0 <= k < |hits|
        ensures hits[k].0 in pats
        ensures exists n: LineNo :: n <= |lines| && search(hits[k].0, lines[n - 1]) && hits[k].1 == Location(path, n)
      {
        if k < |a| {
          var n: LineNo :| n <= |init| && search(a[k].0, init[n - 1]) && a[k].1 == Location(path, n);
          assert init[n - 1] == lines[n - 1] && hits[k] == a[k];
        } else {
          assert hits[k] == b[k - |a|];
        }
      }
    }
  }

  /** Every hit of one line is a listed pattern found in it. */
  lemma {:induction false} LineHitsFrom(path: string, n: LineNo, line: string, pats: seq<string>, search: (string, string) -> bool)
    ensures forall k :: 0 <= k < |LineHits(path, n, line, pats, search)| ==>
      var h := LineHits(path, n, line, pats, search)[k];
      h.0 in pats && search(h.0, line) && h.1 == Location(path, n)
  {
    if pats != [] {
      var init := pats[..|pats| - 1];
      LineHitsFrom(path, n, line, init, search);
      assert forall q :: q in init ==> q in pats;
    }
  }

  /** On success every key of the matches is a listed pattern found in some
      line, and the line count is the number of lines read. */
  lemma TextMatchKeys(file: TextFile, pats: seq<string>, excludePatterns: seq<string>, glob: (string, string) -> bool, search: (string, string) -> bool, p: string)
    requires ProcessText(file, pats, excludePatterns, glob, search).skipped.None?
    ensures var r := ProcessText(file, pats, excludePatterns, glob, search);
      r.totalLines == |file.lines.value|
      && (p in r.matches ==> p in pats && MatchingLines(file.lines.value, p, search) != [])
  {
    var empty: map<string, seq<string>> := map[];
    assert ProcessText(file, pats, excludePatterns, glob, search).matches
      == MultiMap.AppendAll(empty, Hits(file.path, file.lines.value, pats, search));
    HitKey(file.path, file.lines.value, pats, search, p);
  }

  /** A pattern that gets a key was hit by some line. */
  lemma HitKey(path: string, lines: seq<string>, pats: seq<string>, search: (string, string) -> bool, p: string)
    ensures p in MultiMap.AppendAll(map[], Hits(path, lines, pats, search))
            ==> p in pats && MatchingLines(lines, p, search) != []
  {
    var hits := Hits(path, lines, pats, search);
    var empty: map<string, seq<string>> := map[];
    if p in MultiMap.AppendAll(empty, hits) {
      assert exists k :: 0 <= k < |hits| && hits[k].0 == p by {
        MultiMap.AppendAllKeys(empty, hits);
      }
      var k :| 0 <= k < |hits| && hits[k].0 == p;
      assert p in pats && exists n: LineNo :: n <= |lines| && search(p, lines[n - 1]) && hits[k].1 == Location(path, n) by {
        HitsFrom(path, lines, pats, search);
        assert hits[k].0 in pats;
      }
      var n: LineNo :| n <= |lines| && search(p, lines[n - 1]) && hits[k].1 == Location(path, n);
      assert n in MatchingLines(lines, p, search);
    }
  }

  /** A pattern listed once holds exactly the locations of the lines
      containing it: one per such line, in ascending order, so no more than
      the file's line count. */
  lemma TextMatchesExact(file: TextFile, pats: seq<string>, excludePatterns: seq<string>, glob: (string, string) -> bool, search: (string, string) -> bool, p: string)
    requires ProcessText(file, pats, excludePatterns, glob, search).skipped.None?
    requires AtMostOnce(pats, p)
    ensures var r := ProcessText(file, pats, excludePatterns, glob, search);
      MultiMap.Get(r.matches, p) == (if p in pats then LocationsAt(file.path, MatchingLines(file.lines.value, p, search)) else [])
      && |MultiMap.Get(r.matches, p)| <= r.totalLines
  {
    var lines := file.lines.value;
    var hits := Hits(file.path, lines, pats, search);
    var empty: map<string, seq<string>> := map[];
    assert MultiMap.Get(MultiMap.AppendAll(empty, hits), p) == MultiMap.Select(hits, p) by {
      MultiMap.AppendAllGet(empty, hits, p);
    }
    HitsSelect(file.path, lines, pats, search, p);
  }

  /** A line in which no pattern is found has no hits. */
  lemma {:induction false} LineHitsNone(path: string, n: LineNo, line: string, pats: seq<string>, search: (string, string) -> bool)
    requires forall i :: 0 <= i < |pats| ==> !search(pats[i], line)
    ensures LineHits(path, n, line, pats, search) == []
  {
    if pats != [] {
      LineHitsNone(path, n, line, pats[..|pats| - 1], search);
    }
  }

  /** A file in which no pattern is found has no key at all. */
  lemma {:induction false} NoHitsNoKeys(path: string, lines: seq<string>, pats: seq<string>, search: (string, string) -> bool)
    requires forall i, j :: 0 <= i < |pats| && 0 <= j < |lines| ==> !search(pats[i], lines[j])
    ensures Hits(path, lines, pats, search) == []
    ensures MultiMap.AppendAll(map[], Hits(path, lines, pats, search)) == map[]
  {
    if lines != [] {
      NoHitsNoKeys(path, lines[..|lines| - 1], pats, search);
      LineHitsNone(path, |lines|, lines[|lines| - 1], pats, search);
    }
  }

  // ---------------------------------------------------------------------
  // The sample files of tests/test_processors.py.

  /** A literal pattern is found in a line when it occurs in it as a
      contiguous piece (what `search` does for a pattern without
      metacharacters). */
  predicate Occurs(line: string, pat: string) {
    exists i :: 0 <= i <= |line| && OccursAt(line, pat, i)
  }

  predicate OccursAt(line: string, pat: string, i: nat) {
    i + |pat| <= |line| && line[i..i + |pat|] == pat
  }

  function LiteralSearch(): (string, string) -> bool {
    (pat: string, line: string) => Occurs(line, pat)
  }


  /** A line without the pattern's first character does not contain it. */
  lemma NotOccurs(line: string, pat: string)
    requires pat != [] && pat[0] !in line
    ensures !Occurs(line, pat)
  {
    forall i | 0 <= i <= |line|
      ensures !OccursAt(line, pat, i)
    {
      if i + |pat| <= |line| {
        assert line[i..i + |pat|][0] == line[i];
      }
    }
  }

  /** No line contains `p`: no matching lines. */
  lemma {:induction false} MatchingLinesNone(lines: seq<string>, p: string, search: (string, string) -> bool)
    requires forall j :: 0 <= j < |lines| ==> !search(p, lines[j])
    ensures MatchingLines(lines, p, search) == []
  {
    if lines != [] {
      MatchingLinesNone(lines[..|lines| - 1], p, search);
    }
  }

  /** Only line `n` contains `p`: it is the one matching line. */
  lemma {:induction false} MatchingLinesOnly(lines: seq<string>, p: string, search: (string, string) -> bool, n: LineNo)
    requires n <= |lines|
    requires forall j :: 0 <= j < |lines| ==> (search(p, lines[j]) <==> j == n - 1)
    ensures MatchingLines(lines, p, search) == [n]
  {
    var init := lines[..|lines| - 1];
    if |lines| == n {
      MatchingLinesNone(init, p, search);
    } else {
      MatchingLinesOnly(init, p, search, n);
    }
  }

  /** Searching one pattern that only line `n` contains gives that line's
      location alone. */
  lemma OnlyLineMatches(file: TextFile, pat: string, glob: (string, string) -> bool, search: (string, string) -> bool, n: LineNo)
    requires file.lines.Some? && n <= |file.lines.value|
    requires forall j :: 0 <= j < |file.lines.value| ==> (search(pat, file.lines.value[j]) <==> j == n - 1)
    ensures var r := ProcessText(file, [pat], [], glob, search);
      r.skipped.None? && r.totalLines == |file.lines.value| && r.matches == map[pat := [Location(file.path, n)]]
  {
    var lines := file.lines.value;
    var r := ProcessText(file, [pat], [], glob, search);
    MatchingLinesOnly(lines, pat, search, n);
    assert MultiMap.Get(r.matches, pat) == [Location(file.path, n)] by {
      TextMatchesExact(file, [pat], [], glob, search, pat);
      assert LocationsAt(file.path, [n]) == [Location(file.path, n)];
    }
    assert r.matches.Keys == {pat} by {
      forall q | q in r.matches ensures q == pat {
        TextMatchKeys(file, [pat], [], glob, search, q);
      }
    }
  }

  /** The sample file as `readlines()` gives it, line ends kept. */
  function FixtureTextLines(): seq<string> {
    ["class SingletonClass:\n", "    def method(self):\n", "        pass\n", "\n", "def helper():\n", "    pass"]
  }

  lemma FixtureOnlyFirstLine()
    ensures forall j :: 0 <= j < 6 ==> (Occurs(FixtureTextLines()[j], "class") <==> j == 0)
  {
    var lines := FixtureTextLines();
    assert OccursAt(lines[0], "class", 0);
    forall j | 1 <= j < 6 ensures !Occurs(lines[j], "class") {
      NotOccurs(lines[j], "class");
    }
  }

  /** Searching the sample file for "class" gives one location, line 1. */
  lemma FixtureTextMatches(path: string, glob: (string, string) -> bool)
    ensures var r := ProcessText(TextFile(path, "test.py", Some(FixtureTextLines())), ["class"], [], glob, LiteralSearch());
      r.skipped.None? && r.totalLines == 6 && r.matches == map["class" := [Location(path, 1)]]
  {
    FixtureOnlyFirstLine();
    OnlyLineMatches(TextFile(path, "test.py", Some(FixtureTextLines())), "class", glob, LiteralSearch(), 1);
  }

  /** The line "No class here" does contain "class": searching it gives one
      location, not the empty result tests/test_processors.py:62-68
      expects. */
  lemma NoClassHereMatches(path: string, glob: (string, string) -> bool)
    ensures ProcessText(TextFile(path, "no_match.py", Some(["No class here"])), ["class"], [], glob, LiteralSearch()).matches
      == map["class" := [Location(path, 1)]]
  {
    assert OccursAt("No class here", "class", 3);
    OnlyLineMatches(TextFile(path, "no_match.py", Some(["No class here"])), "class", glob, LiteralSearch(), 1);
  }
}
