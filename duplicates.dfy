/** compute_duplicates and the exit decision of the older build's main
    (build/lib/duplifinder/main.py): the global maps of the finder are
    filtered by the minimum number of occurrences and, in definition mode,
    by literal names and kind-scoped regexes; the survivors are keyed
    "kind name" or "pattern match '<pattern>'" with sorted locations. */
module Duplicates {
  import opened Common
  import opened Strings
  import MultiMap
  import opened Sorting
  import opened AstProcessor
  import opened Finder

  /** The fields of Config compute_duplicates reads. */
  datatype DupConfig = DupConfig(minOccurrences: int, filterNames: set<string>, filterRegexes: seq<string>)

  // ---------------------------------------------------------------------
  // Text mode (lines 19-23).

  /** f"pattern match '{matched}'". */
  function PatternKey(matched: string): string {
    "pattern match '" + matched + "'"
  }

  /** Different patterns get different keys. */
  lemma PatternKeyInjective()
    ensures forall a, b :: PatternKey(a) == PatternKey(b) ==> a == b
  {
    var pre := "pattern match '";
    forall a, b | PatternKey(a) == PatternKey(b) ensures a == b {
      assert |a| == |b|;
      forall i | 0 <= i < |a| ensures a[i] == b[i] {
        assert PatternKey(a)[|pre| + i] == a[i];
        assert PatternKey(b)[|pre| + i] == b[i];
      }
    }
  }

  /** The dict comprehension of line 23: the patterns with at least
      `min_occurrences` locations, under their key, locations sorted. */
  function TextDuplicates(all: map<string, seq<string>>, minOccurrences: int): (r: map<string, seq<string>>)
    ensures forall m :: m in all && |all[m]| >= minOccurrences ==> PatternKey(m) in r
  {
    PatternKeyInjective();
    map m | m in all && |all[m]| >= minOccurrences :: PatternKey(m) := Sort(all[m], s => s)
  }

  /** A pattern's key is present exactly when the pattern had enough
      locations, and nothing else is present. */
  lemma TextDuplicatesKeys(all: map<string, seq<string>>, minOccurrences: int)
    ensures forall m :: PatternKey(m) in TextDuplicates(all, minOccurrences) <==> m in all && |all[m]| >= minOccurrences
    ensures forall k :: k in TextDuplicates(all, minOccurrences) ==>
      exists p :: p in all && |all[p]| >= minOccurrences && k == PatternKey(p)
  {
    PatternKeyInjective();
  }

  /** A surviving pattern's list holds its locations, each as often, in
      string order. */
  lemma TextDuplicatesSorted(all: map<string, seq<string>>, minOccurrences: int, m: string)
    requires m in all && |all[m]| >= minOccurrences
    ensures PatternKey(m) in TextDuplicates(all, minOccurrences)
    ensures var locs := TextDuplicates(all, minOccurrences)[PatternKey(m)];
      multiset(locs) == multiset(all[m]) && SortedBy(locs, s => s)
  {
    PatternKeyInjective();
    SortCorrect(all[m], s => s);
  }

  // ---------------------------------------------------------------------
  // Definition mode (lines 24-36).

  /** Index of the first space of `p`, |p| when there is none. */
  function FirstSpace(p: string): (i: nat)
    ensures i <= |p|
    ensures forall j :: 0 <= j < i ==> p[j] != ' '
    ensures i < |p| ==> p[i] == ' '
  {
    if p == [] || p[0] == ' ' then 0 else 1 + FirstSpace(p[1..])
  }

  /** `p.split(" ", 1)[1]` for a `p` holding a space: what follows the
      first space. */
  function AfterFirstSpace(p: string): string
    requires ' ' in p
  {
    p[FirstSpace(p) + 1..]
  }

  /** f"{t} " prefixes p. */
  predicate ScopedTo(p: string, t: Kind) {
    KindName(t) + " " <= p
  }

  /** The comprehension of line 31: the regexes without a space, for every
      kind, and those scoped to `t` ("t rest"), reduced to what follows the
      first space. */
  function KindPatterns(regexes: seq<string>, t: Kind): (r: seq<string>)
    ensures |r| <= |regexes|
  {
    if regexes == [] then []
    else
      var p := regexes[|regexes| - 1];
      KindPatterns(regexes[..|regexes| - 1], t)
        + (if ' ' !in p then [p] else if ScopedTo(p, t) then [AfterFirstSpace(p)] else [])
  }

  /** Without scoped regexes, every regex applies to every kind, in order. */
  lemma {:induction false} KindPatternsUnscoped(regexes: seq<string>, t: Kind)
    requires forall i :: 0 <= i < |regexes| ==> ' ' !in regexes[i]
    ensures KindPatterns(regexes, t) == regexes
  {
    if regexes != [] {
      KindPatternsUnscoped(regexes[..|regexes| - 1], t);
      assert regexes[..|regexes| - 1] + [regexes[|regexes| - 1]] == regexes;
    }
  }

  /** For a regex scoped to `t`, the first space is the one after the kind
      name, so the regex kept is exactly the rest. */
  lemma ScopedRest(p: string, t: Kind)
    requires ScopedTo(p, t)
    ensures ' ' in p
    ensures AfterFirstSpace(p) == p[|KindName(t)| + 1..]
  {
    var n := KindName(t);
    assert p[|n|] == ' ';
    assert forall j :: 0 <= j < |n| ==> p[j] == n[j] && n[j] != ' ';
    assert FirstSpace(p) == |n|;
  }

  /** Regex `p` applies to kind `t` as `q`: unchanged when it has no
      space, as the rest after "t " when scoped to `t`. */
  predicate AppliesAs(p: string, t: Kind, q: string) {
    (' ' !in p && q == p) || (ScopedTo(p, t) && q == p[|KindName(t)| + 1..])
  }

  /** The regexes applicable to kind `t` are exactly those that apply to
      it, in what they match. */
  lemma {:induction false} KindPatternsExact(regexes: seq<string>, t: Kind)
    ensures forall q :: q in KindPatterns(regexes, t) <==> exists i :: 0 <= i < |regexes| && AppliesAs(regexes[i], t, q)
  {
    if regexes != [] {
      var init := regexes[..|regexes| - 1];
      var p := regexes[|regexes| - 1];
      KindPatternsExact(init, t);
      if ScopedTo(p, t) {
        ScopedRest(p, t);
      }
      forall q ensures q in KindPatterns(regexes, t) <==> exists i :: 0 <= i < |regexes| && AppliesAs(regexes[i], t, q) {
        if exists i :: 0 <= i < |regexes| && AppliesAs(regexes[i], t, q) {
          var i :| 0 <= i < |regexes| && AppliesAs(regexes[i], t, q);
          if i < |init| {
            assert init[i] == regexes[i];
          }
        }
        if q in KindPatterns(init, t) {
          var i :| 0 <= i < |init| && AppliesAs(init[i], t, q);
          assert init[i] == regexes[i];
        }
      }
    }
  }

  /** "class Foo.*" applies to classes only, as "Foo.*"; a regex without a
      space applies to every kind. */
  lemma ScopedExamples()
    ensures KindPatterns(["class Foo.*"], Class) == ["Foo.*"]
    ensures KindPatterns(["class Foo.*"], Def) == []
    ensures KindPatterns(["Foo"], AsyncDef) == ["Foo"]
  {
    var p := "class Foo.*";
    assert ScopedTo(p, Class);
    ScopedRest(p, Class);
    assert p[6..] == "Foo.*";
    assert !ScopedTo(p, Def) by {
      assert p[0] != KindName(Def)[0];
    }
    assert ' ' in p by { assert p[5] == ' '; }
    var none: seq<string> := [];
    assert [p][..0] == none;
    assert ' ' !in "Foo";
    assert ["Foo"][..0] == none;
  }

  /** Line 32: kept when no name filter and no applicable regex exist, when
      the name is a filter name, or when an applicable regex matches it at
      its start (`matchAt(pattern, name)`). */
  predicate Included(t: Kind, name: string, cfg: DupConfig, matchAt: (string, string) -> bool)
    ensures name in cfg.filterNames ==> Included(t, name, cfg, matchAt)
    ensures cfg.filterNames == {} && cfg.filterRegexes == [] ==> Included(t, name, cfg, matchAt)
  {
    var patterns := KindPatterns(cfg.filterRegexes, t);
    (cfg.filterNames == {} && patterns == [])
    || name in cfg.filterNames
    || exists i :: 0 <= i < |patterns| && matchAt(patterns[i], name)
  }

  /** f"{t} {name}" (the class branch spells out the same key). */
  function DefKey(t: Kind, name: string): string {
    KindName(t) + " " + name
  }

  /** Different (kind, name) pairs get different keys: a kind name holds no
      space, so the first space ends it. */
  lemma DefKeyInjective(t1: Kind, n1: string, t2: Kind, n2: string)
    requires DefKey(t1, n1) == DefKey(t2, n2)
    ensures t1 == t2 && n1 == n2
  {
    var k := DefKey(t1, n1);
    assert ScopedTo(k, t1) && ScopedTo(k, t2);
    ScopedRest(k, t1);
    ScopedRest(k, t2);
    assert |KindName(t1)| == |KindName(t2)|;
    assert KindName(t1) == k[..|KindName(t1)|] == KindName(t2);
    KindNameInjective(t1, t2);
    assert n1 == k[|KindName(t1)| + 1..] == n2;
  }

  /** Whether the group (t, name) of `all` survives the filters. */
  predicate Survives(all: Defs, t: Kind, name: string, cfg: DupConfig, matchAt: (string, string) -> bool) {
    t in all && name in all[t] && |all[t][name]| >= cfg.minOccurrences && Included(t, name, cfg, matchAt)
  }

  /** `sorted(loc_snippets, key=lambda x: x[0])`. */
  function SortItems(items: seq<Item>): seq<Item> {
    Sort(items, (x: Item) => x.loc)
  }

  /** What the loop of lines 27-36 leaves in `duplicates`. */
  ghost predicate DefDuplicatesOf(r: map<string, seq<Item>>, all: Defs, cfg: DupConfig, matchAt: (string, string) -> bool) {
    && (forall t, name :: DefKey(t, name) in r <==> Survives(all, t, name, cfg, matchAt))
    && (forall t, name :: DefKey(t, name) in r ==> r[DefKey(t, name)] == SortItems(all[t][name]))
    && (forall k :: k in r ==> exists t, name :: k == DefKey(t, name))
  }

  /** The inner loop (lines 28-36) over the names of kind `t`. */
  method FilterNames(r0: map<string, seq<Item>>, all: Defs, t: Kind, cfg: DupConfig, matchAt: (string, string) -> bool)
    returns (r: map<string, seq<Item>>)
    requires t in all
    ensures forall t', name :: t' != t ==> (DefKey(t', name) in r <==> DefKey(t', name) in r0)
    ensures forall t', name :: t' != t && DefKey(t', name) in r ==> r[DefKey(t', name)] == r0[DefKey(t', name)]
    ensures forall name :: DefKey(t, name) in r <==> DefKey(t, name) in r0 || Survives(all, t, name, cfg, matchAt)
    ensures forall name :: Survives(all, t, name, cfg, matchAt) ==> r[DefKey(t, name)] == SortItems(all[t][name])
    ensures forall name :: DefKey(t, name) in r0 && !Survives(all, t, name, cfg, matchAt) ==> r[DefKey(t, name)] == r0[DefKey(t, name)]
    ensures forall k :: k in r ==> k in r0 || exists name :: k == DefKey(t, name)
  {
    r := r0;
    var todo := all[t].Keys;
    while todo != {}
      invariant todo <= all[t].Keys
      invariant forall t', name :: t' != t ==> (DefKey(t', name) in r <==> DefKey(t', name) in r0)
      invariant forall t', name :: t' != t && DefKey(t', name) in r ==> r[DefKey(t', name)] == r0[DefKey(t', name)]
      invariant forall name :: DefKey(t, name) in r <==> DefKey(t, name) in r0 || (name !in todo && Survives(all, t, name, cfg, matchAt))
      invariant forall name :: name !in todo && Survives(all, t, name, cfg, matchAt) ==> r[DefKey(t, name)] == SortItems(all[t][name])
      invariant forall name :: DefKey(t, name) in r0 && !Survives(all, t, name, cfg, matchAt) ==> r[DefKey(t, name)] == r0[DefKey(t, name)]
      invariant forall k :: k in r ==> k in r0 || exists name :: k == DefKey(t, name)
      decreases todo
    {
      var name :| name in todo;
      todo := todo - {name};
      var locSnippets := all[t][name];
      if |locSnippets| < cfg.minOccurrences {
        continue;
      }
      if !Included(t, name, cfg, matchAt) {
        continue;
      }
      DefKeyOnly(t, name);
      r := r[DefKey(t, name) := SortItems(locSnippets)];
    }
  }

  /** No other (kind, name) pair shares the key of (t, name). */
  lemma DefKeyOnly(t: Kind, name: string)
    ensures forall t', n' :: DefKey(t', n') == DefKey(t, name) ==> t' == t && n' == name
  {
    forall t', n' | DefKey(t', n') == DefKey(t, name) ensures t' == t && n' == name {
      DefKeyInjective(t', n', t, name);
    }
  }

  /** The loops of lines 27-36: every kind and name of the global map. */
  method DefDuplicates(all: Defs, cfg: DupConfig, matchAt: (string, string) -> bool) returns (r: map<string, seq<Item>>)
    ensures DefDuplicatesOf(r, all, cfg, matchAt)
  {
    r := map[];
    var todo := all.Keys;
    while todo != {}
      invariant todo <= all.Keys
      invariant forall t, name :: DefKey(t, name) in r <==> t !in todo && Survives(all, t, name, cfg, matchAt)
      invariant forall t, name :: DefKey(t, name) in r ==> r[DefKey(t, name)] == SortItems(all[t][name])
      invariant forall k :: k in r ==> exists t, name :: k == DefKey(t, name)
      decreases todo
    {
      var t :| t in todo;
      todo := todo - {t};
      r := FilterNames(r, all, t, cfg, matchAt);
    }
  }

  /** Each surviving group keeps exactly its items, ordered by location. */
  lemma SortItemsCorrect(items: seq<Item>)
    ensures multiset(SortItems(items)) == multiset(items)
    ensures SortedBy(SortItems(items), (x: Item) => x.loc)
  {
    SortCorrect(items, (x: Item) => x.loc);
  }

  /** With no filters and a minimum of 2, exactly the names defined at least
      twice survive. */
  lemma UnfilteredKeepsRepeated(all: Defs, t: Kind, name: string, matchAt: (string, string) -> bool)
    ensures Survives(all, t, name, DupConfig(2, {}, []), matchAt) <==> t in all && name in all[t] && |all[t][name]| >= 2
  {
  }

  // ---------------------------------------------------------------------
  // compute_duplicates (lines 13-38) and the exit of main (lines 57-58).

  /** The duplicates of either mode. */
  datatype Found = TextFound(text: map<string, seq<string>>) | DefFound(defs: map<string, seq<Item>>)

  predicate Empty(f: Found) {
    match f
    case TextFound(m) => m == map[]
    case DefFound(m) => m == map[]
  }

  /** compute_duplicates over the per-file results of the finder:
      (duplicates, skipped, scanned), with skipped and scanned as the
      finder counted them. */
  method ComputeDuplicates(cfg: DupConfig, isTextMode: bool, types: set<Kind>,
                           defResults: seq<(Defs, Option<string>)>,
                           textResults: seq<(map<string, seq<string>>, Option<string>)>,
                           matchAt: (string, string) -> bool)
    returns (duplicates: Found, skipped: seq<string>, scanned: nat)
    requires !isTextMode ==> Fits(types, defResults)
    ensures isTextMode ==>
      var t := FindText(textResults);
      duplicates == TextFound(TextDuplicates(t.matches, cfg.minOccurrences)) && skipped == t.skipped && scanned == t.scanned
    ensures !isTextMode ==>
      var t := FindDefs(types, defResults);
      duplicates.DefFound? && DefDuplicatesOf(duplicates.defs, t.defs, cfg, matchAt)
      && skipped == t.skipped && scanned == t.scanned
  {
    if isTextMode {
      var allMatches;
      allMatches, skipped, scanned := FindTextMatches(textResults);
      duplicates := TextFound(TextDuplicates(allMatches, cfg.minOccurrences));
    } else {
      var allDefs;
      allDefs, skipped, scanned := FindDefinitions(types, defResults);
      var d := DefDuplicates(allDefs, cfg, matchAt);
      duplicates := DefFound(d);
    }
  }

  /** `if config.fail_on_duplicates and duplicates: sys.exit(1)`; 0 when
      main returns normally. */
  function LegacyExit(failOnDuplicates: bool, duplicates: Found): (code: int)
    ensures code == 1 <==> failOnDuplicates && !Empty(duplicates)
    ensures code == 0 || code == 1
  {
    if failOnDuplicates && !Empty(duplicates) then 1 else 0
  }
}
