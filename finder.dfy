/** The older build's finder (build/lib/duplifinder/finder.py): which files
    are discovered, and the sequential folds of find_definitions and
    find_text_matches over the per-file results, counting scanned and
    skipped files and concatenating every per-file list into the global
    map. */
module Finder {
  import opened Common
  import MultiMap
  import opened AstProcessor

  // ---------------------------------------------------------------------
  // discover_py_files (lines 20-25).

  /** A path, as the sequence of its parts (`p.parts`), is kept when none of
      its parts is an ignored directory name. */
  predicate KeptPath(parts: seq<string>, ignoreDirs: set<string>) {
    forall i :: 0 <= i < |parts| ==> parts[i] !in ignoreDirs
  }

  /** The list comprehension over what `rglob("*.py")` yields. */
  function Discover(candidates: seq<seq<string>>, ignoreDirs: set<string>): (r: seq<seq<string>>)
    ensures |r| <= |candidates|
    ensures forall i :: 0 <= i < |r| ==> r[i] in candidates && KeptPath(r[i], ignoreDirs)
  {
    if candidates == [] then []
    else
      var p := candidates[|candidates| - 1];
      Discover(candidates[..|candidates| - 1], ignoreDirs) + (if KeptPath(p, ignoreDirs) then [p] else [])
  }

  /** A path is discovered exactly when it is a candidate none of whose
      parts is ignored, and the candidates' order is kept. */
  lemma {:induction false} DiscoverExact(candidates: seq<seq<string>>, ignoreDirs: set<string>)
    ensures forall p :: p in Discover(candidates, ignoreDirs) <==> p in candidates && KeptPath(p, ignoreDirs)
    ensures Discover(candidates, ignoreDirs) == [] || Discover(candidates, ignoreDirs)[|Discover(candidates, ignoreDirs)| - 1] in candidates
  {
    if candidates != [] {
      var init := candidates[..|candidates| - 1];
      DiscoverExact(init, ignoreDirs);
      assert candidates == init + [candidates[|candidates| - 1]];
    }
  }

  /** Discovery of one candidate list after another is the discovery of
      each, one after the other: the order of the candidates is kept. */
  lemma {:induction false} DiscoverConcat(a: seq<seq<string>>, b: seq<seq<string>>, ignoreDirs: set<string>)
    ensures Discover(a + b, ignoreDirs) == Discover(a, ignoreDirs) + Discover(b, ignoreDirs)
  {
    if b != [] {
      DiscoverConcat(a, b[..|b| - 1], ignoreDirs);
      assert (a + b)[..|a + b| - 1] == a + b[..|b| - 1];
    } else {
      assert a + b == a;
    }
  }

  /** A tree holding "a.py" and ".git/c.py" with ".git" ignored discovers
      "a.py" only. */
  lemma DiscoverIgnoresGit(root: seq<string>)
    requires KeptPath(root, {".git"})
    ensures Discover([root + ["a.py"], root + [".git", "c.py"]], {".git"}) == [root + ["a.py"]]
  {
    var a, c := root + ["a.py"], root + [".git", "c.py"];
    assert KeptPath(a, {".git"}) by {
      forall i | 0 <= i < |a| ensures a[i] !in {".git"} {
        if i < |root| { assert a[i] == root[i]; }
      }
    }
    assert !KeptPath(c, {".git"}) by {
      assert c[|root|] == ".git";
    }
    assert [a, c][..1] == [a];
    var none: seq<seq<string>> := [];
    assert [a][..0] == none;
  }

  // ---------------------------------------------------------------------
  // Merging one file's lists into the global map (lines 62-64, 89-90).

  /** `all[name].extend(items)` for every name of `add`: each list of `add`
      is appended to the list under the same name, created empty when
      missing. */
  function MergeNames<V>(acc: map<string, seq<V>>, add: map<string, seq<V>>): (r: map<string, seq<V>>)
    ensures r.Keys == acc.Keys + add.Keys
    ensures forall n :: MultiMap.Get(r, n) == MultiMap.Get(acc, n) + MultiMap.Get(add, n)
  {
    map n | n in acc.Keys + add.Keys :: MultiMap.Get(acc, n) + MultiMap.Get(add, n)
  }

  /** The inner loop of lines 63-64 (and the loop of lines 89-90), taking
      the names of `add` in any order. */
  method MergeNamesInto<V>(acc: map<string, seq<V>>, add: map<string, seq<V>>) returns (r: map<string, seq<V>>)
    ensures r == MergeNames(acc, add)
  {
    r := acc;
    var todo := add.Keys;
    while todo != {}
      invariant todo <= add.Keys
      invariant r.Keys == acc.Keys + (add.Keys - todo)
      invariant forall n :: MultiMap.Get(r, n) == MultiMap.Get(acc, n) + (if n in add && n !in todo then add[n] else [])
      decreases todo
    {
      var name :| name in todo;
      MergeNameStep(acc, add, r, todo, name);
      r := r[name := MultiMap.Get(r, name) + add[name]];
      todo := todo - {name};
    }
    MultiMap.GetExtensional(r, MergeNames(acc, add));
  }

  /** One turn of MergeNamesInto's loop keeps its invariant. */
  lemma MergeNameStep<V>(acc: map<string, seq<V>>, add: map<string, seq<V>>, r: map<string, seq<V>>, todo: set<string>, name: string)
    requires todo <= add.Keys && name in todo
    requires r.Keys == acc.Keys + (add.Keys - todo)
    requires forall n :: MultiMap.Get(r, n) == MultiMap.Get(acc, n) + (if n in add && n !in todo then add[n] else [])
    ensures var r' := r[name := MultiMap.Get(r, name) + add[name]];
      && r'.Keys == acc.Keys + (add.Keys - (todo - {name}))
      && forall n :: MultiMap.Get(r', n) == MultiMap.Get(acc, n) + (if n in add && n !in todo - {name} then add[n] else [])
  {
    var r' := r[name := MultiMap.Get(r, name) + add[name]];
    forall n ensures MultiMap.Get(r', n) == MultiMap.Get(acc, n) + (if n in add && n !in todo - {name} then add[n] else []) {
      if n == name {
        assert MultiMap.Get(r, n) == MultiMap.Get(acc, n) + [];
      }
    }
  }

  /** The names of kind `t` in a definitions map, none when `t` is absent. */
  function NamesOf(d: Defs, t: Kind): map<string, seq<Item>> {
    if t in d then d[t] else map[]
  }

  /** `all_definitions[t][name].extend(items)` for every kind and name of
      one file's `defs`; every kind of `defs` must already be a key (a
      missing one raises KeyError). */
  function MergeDefs(acc: Defs, add: Defs): (r: Defs)
    requires add.Keys <= acc.Keys
    ensures r.Keys == acc.Keys
    ensures forall t :: t in r ==> r[t] == MergeNames(acc[t], NamesOf(add, t))
  {
    map t | t in acc :: MergeNames(acc[t], NamesOf(add, t))
  }

  /** The loops of lines 62-64 over the kinds of one file's `defs`. */
  method MergeDefsInto(acc: Defs, add: Defs) returns (r: Defs)
    requires add.Keys <= acc.Keys
    ensures r == MergeDefs(acc, add)
  {
    r := acc;
    var todo := add.Keys;
    while todo != {}
      invariant todo <= add.Keys
      invariant r.Keys == acc.Keys
      invariant forall t :: t in r ==> r[t] == if t in add && t !in todo then MergeNames(acc[t], add[t]) else acc[t]
      decreases todo
    {
      var t :| t in todo;
      var merged := MergeNamesInto(r[t], add[t]);
      r := r[t := merged];
      todo := todo - {t};
    }
    forall t | t in r ensures r[t] == MergeDefs(acc, add)[t] {
      if t !in add {
        MergeNamesNothing(acc[t]);
      }
    }
  }

  /** Merging a file that contributed nothing (a skipped file's `{}`, or
      kinds with no names) leaves the global map unchanged. */
  lemma MergeNothing(acc: Defs, add: Defs)
    requires add.Keys <= acc.Keys
    requires forall t :: t in add ==> add[t] == map[]
    ensures MergeDefs(acc, add) == acc
  {
    var r := MergeDefs(acc, add);
    forall t | t in r ensures r[t] == acc[t] {
      assert NamesOf(add, t) == map[];
      MergeNamesNothing(acc[t]);
    }
  }

  /** The text-mode counterpart: merging `{}` changes nothing. */
  lemma MergeNamesNothing<V>(acc: map<string, seq<V>>)
    ensures MergeNames(acc, map[]) == acc
  {
    var none: map<string, seq<V>> := map[];
    var r := MergeNames(acc, none);
    forall n ensures MultiMap.Get(r, n) == MultiMap.Get(acc, n) {
      assert MultiMap.Get(r, n) == MultiMap.Get(acc, n) + [];
    }
    MultiMap.GetExtensional(r, acc);
  }

  // ---------------------------------------------------------------------
  // The folds of find_definitions (lines 42-66) and find_text_matches
  // (lines 69-92), over the per-file results in the order they arrive.

  /** `if skipped_file:` — a skip marker counts when it is a non-empty
      string. */
  predicate Marked(skip: Option<string>) {
    skip.Some? && skip.value != ""
  }

  /** (all_definitions, skipped, scanned). */
  datatype DefTotals = DefTotals(defs: Defs, skipped: seq<string>, scanned: nat)

  /** `{t: defaultdict(list) for t in types_to_search}`. */
  function InitialDefs(types: set<Kind>): (r: Defs)
    ensures r.Keys == types
    ensures forall t :: t in r ==> r[t] == map[]
  {
    map t | t in types :: map[]
  }

  /** The per-file results fit the global map: their kinds are among the
      requested ones. */
  predicate Fits(types: set<Kind>, results: seq<(Defs, Option<string>)>) {
    forall i :: 0 <= i < |results| ==> results[i].0.Keys <= types
  }

  /** What find_definitions returns after the results `results`. */
  function FindDefs(types: set<Kind>, results: seq<(Defs, Option<string>)>): (r: DefTotals)
    requires Fits(types, results)
    ensures r.defs.Keys == types
  {
    if results == [] then DefTotals(InitialDefs(types), [], 0)
    else
      var t := FindDefs(types, results[..|results| - 1]);
      var last := results[|results| - 1];
      DefTotals(MergeDefs(t.defs, last.0),
                if Marked(last.1) then t.skipped + [last.1.value] else t.skipped,
                if Marked(last.1) then t.scanned else t.scanned + 1)
  }

  /** find_definitions' loop over the results. */
  method FindDefinitions(types: set<Kind>, results: seq<(Defs, Option<string>)>)
    returns (allDefinitions: Defs, skipped: seq<string>, scanned: nat)
    requires Fits(types, results)
    ensures DefTotals(allDefinitions, skipped, scanned) == FindDefs(types, results)
  {
    allDefinitions := map t | t in types :: map[];
    skipped := [];
    scanned := 0;
    var i := 0;
    assert results[..0] == [];
    while i < |results|
      invariant 0 <= i <= |results|
      invariant Fits(types, results[..i])
      invariant DefTotals(allDefinitions, skipped, scanned) == FindDefs(types, results[..i])
    {
      var (defs, skippedFile) := results[i];
      assert results[..i + 1][..i] == results[..i];
      assert results[..i + 1][i] == results[i];
      if skippedFile.Some? && skippedFile.value != "" {
        skipped := skipped + [skippedFile.value];
      } else {
        scanned := scanned + 1;
      }
      allDefinitions := MergeDefsInto(allDefinitions, defs);
      i := i + 1;
    }
    assert results[..i] == results;
  }

  /** The files counted: each result is either skipped or scanned, never
      both, and the skipped list holds the markers in arrival order. */
  lemma {:induction false} FindDefsCounts(types: set<Kind>, results: seq<(Defs, Option<string>)>)
    requires Fits(types, results)
    ensures FindDefs(types, results).scanned + |FindDefs(types, results).skipped| == |results|
    ensures FindDefs(types, results).skipped == Markers(results)
  {
    if results != [] {
      FindDefsCounts(types, results[..|results| - 1]);
    }
  }

  /** The non-empty skip markers among `results`, in order. */
  function Markers<T>(results: seq<(T, Option<string>)>): (r: seq<string>)
    ensures |r| <= |results|
  {
    if results == [] then []
    else
      var last := results[|results| - 1];
      Markers(results[..|results| - 1]) + (if Marked(last.1) then [last.1.value] else [])
  }

  /** The items of kind `t` and name `name` across the results, file after
      file. */
  function ItemsAcross(results: seq<(Defs, Option<string>)>, t: Kind, name: string): seq<Item> {
    if results == [] then []
    else ItemsAcross(results[..|results| - 1], t, name) + MultiMap.Get(NamesOf(results[|results| - 1].0, t), name)
  }

  /** After the fold, each (kind, name) list is the concatenation of the
      per-file lists in arrival order, so its length is the sum of theirs. */
  lemma {:induction false} FindDefsItems(types: set<Kind>, results: seq<(Defs, Option<string>)>, t: Kind, name: string)
    requires Fits(types, results)
    requires t in types
    ensures MultiMap.Get(FindDefs(types, results).defs[t], name) == ItemsAcross(results, t, name)
  {
    if results != [] {
      FindDefsItems(types, results[..|results| - 1], t, name);
    }
  }

  /** The names some file had under kind `t`. */
  function NamesAcross(results: seq<(Defs, Option<string>)>, t: Kind): set<string> {
    if results == [] then {}
    else NamesAcross(results[..|results| - 1], t) + NamesOf(results[|results| - 1].0, t).Keys
  }

  /** A name is present under a kind exactly when some file had it under
      that kind. */
  lemma {:induction false} FindDefsNames(types: set<Kind>, results: seq<(Defs, Option<string>)>, t: Kind)
    requires Fits(types, results)
    requires t in types
    ensures FindDefs(types, results).defs[t].Keys == NamesAcross(results, t)
  {
    if results != [] {
      FindDefsNames(types, results[..|results| - 1], t);
    }
  }

  /** Results produced by process_file_ast for the same configuration fit:
      a file contributes the requested kinds, or nothing. */
  lemma ProcessedFit(types: set<Kind>, files: seq<SourceFile>, cfg: AstConfig, glob: (string, string) -> bool, matchAt: (string, string) -> bool)
    requires cfg.types == types
    ensures Fits(types, seq(|files|, i requires 0 <= i < |files| =>
      (ProcessAst(files[i], cfg, glob, matchAt).defs, ProcessAst(files[i], cfg, glob, matchAt).skipped)))
  {
    forall i | 0 <= i < |files| ensures ProcessAst(files[i], cfg, glob, matchAt).defs.Keys <= types {
      ProcessAstOutcome(files[i], cfg, glob, matchAt);
    }
  }

  /** (all_matches, skipped, scanned). */
  datatype TextTotals = TextTotals(matches: map<string, seq<string>>, skipped: seq<string>, scanned: nat)

  /** What find_text_matches returns after the results `results`. */
  function FindText(results: seq<(map<string, seq<string>>, Option<string>)>): TextTotals {
    if results == [] then TextTotals(map[], [], 0)
    else
      var t := FindText(results[..|results| - 1]);
      var last := results[|results| - 1];
      TextTotals(MergeNames(t.matches, last.0),
                 if Marked(last.1) then t.skipped + [last.1.value] else t.skipped,
                 if Marked(last.1) then t.scanned else t.scanned + 1)
  }

  /** find_text_matches' loop over the results. */
  method FindTextMatches(results: seq<(map<string, seq<string>>, Option<string>)>)
    returns (allMatches: map<string, seq<string>>, skipped: seq<string>, scanned: nat)
    ensures TextTotals(allMatches, skipped, scanned) == FindText(results)
  {
    allMatches := map[];
    skipped := [];
    scanned := 0;
    var i := 0;
    assert results[..0] == [];
    while i < |results|
      invariant 0 <= i <= |results|
      invariant TextTotals(allMatches, skipped, scanned) == FindText(results[..i])
    {
      var (matches, skippedFile) := results[i];
      assert results[..i + 1][..i] == results[..i];
      if skippedFile.Some? && skippedFile.value != "" {
        skipped := skipped + [skippedFile.value];
      } else {
        scanned := scanned + 1;
      }
      allMatches := MergeNamesInto(allMatches, matches);
      i := i + 1;
    }
    assert results[..i] == results;
  }

  /** The locations of one pattern across the results, file after file. */
  function LocationsAcross(results: seq<(map<string, seq<string>>, Option<string>)>, pat: string): seq<string> {
    if results == [] then []
    else LocationsAcross(results[..|results| - 1], pat) + MultiMap.Get(results[|results| - 1].0, pat)
  }

  /** Each file is skipped or scanned, never both; each pattern's list is
      the concatenation of the per-file lists in arrival order. */
  lemma {:induction false} FindTextTotals(results: seq<(map<string, seq<string>>, Option<string>)>, pat: string)
    ensures FindText(results).scanned + |FindText(results).skipped| == |results|
    ensures FindText(results).skipped == Markers(results)
    ensures MultiMap.Get(FindText(results).matches, pat) == LocationsAcross(results, pat)
  {
    if results != [] {
      FindTextTotals(results[..|results| - 1], pat);
    }
  }
}
