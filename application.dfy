/** The workflow layer (src/duplifinder/application.py): which workflow a
    configuration selects, the exit code each workflow's `run` returns from
    what its finder reports, and the flattening of definition results into
    "kind name" keys. Scanning, rendering, timing and audit logging are not
    modelled; a finder's result enters as the counts the decisions read. */
module Application {
  import opened Common
  import opened AstProcessor
  import opened Duplicates
  import opened DuplicateRenderer

  /** The settings the outcome decisions read. */
  datatype RunConfig = RunConfig(
    searchMode: bool,
    tokenMode: bool,
    patternRegexes: seq<string>,
    failOnDuplicates: bool,
    dupThreshold: real)

  /** What a finder reports, as far as an exit code depends on it:
      `len(skipped)`, `scanned`, `total_lines` and `dup_lines`. */
  datatype Report = Report(skipped: nat, scanned: nat, totalLines: nat, dupLines: nat)

  /** The reports of the four finders: for search mode the number of
      occurrences found for each search spec. */
  datatype Scans = Scans(search: map<string, nat>, token: Report, pattern: Report, definitions: Report)

  // ---------------------------------------------------------------------
  // Rates.

  /** `len(skipped) / (scanned + len(skipped))`, or 0 when no file was seen
      (line 110). */
  function SkipRate(skipped: nat, scanned: nat): real {
    if scanned + skipped > 0 then skipped as real / (scanned + skipped) as real else 0.0
  }

  /** `skip_rate > 0.1` (line 111), cross-multiplied. */
  predicate SkipGate(skipped: nat, scanned: nat) {
    10 * skipped > scanned + skipped
  }

  /** For a positive denominator, a quotient exceeds a bound iff the
      numerator exceeds the bound times the denominator. */
  lemma QuotientAbove(a: real, n: real, b: real)
    requires n > 0.0
    ensures a / n > b <==> a > b * n
  {
    var q := a / n;
    assert q * n == a;
    assert (q - b) * n == a - b * n;
    if q > b {
      assert (q - b) * n > 0.0;
    } else {
      assert (b - q) * n >= 0.0;
    }
  }

  /** The gate fires iff the skip rate is strictly above one tenth. */
  lemma SkipGateIsRate(skipped: nat, scanned: nat)
    ensures SkipGate(skipped, scanned) <==> SkipRate(skipped, scanned) > 1.0 / 10.0
  {
    var n := scanned + skipped;
    if n > 0 {
      QuotientAbove(skipped as real, n as real, 1.0 / 10.0);
    }
  }

  /** `dup_lines / total_lines if total_lines else 0` (lines 60, 86, 106). */
  function DupRate(dupLines: nat, totalLines: nat): real {
    if totalLines > 0 then dupLines as real / totalLines as real else 0.0
  }

  /** The rate exceeds a threshold iff the duplicated lines exceed that
      share of all lines; with no lines the rate is 0. */
  lemma DupRateAbove(dupLines: nat, totalLines: nat, threshold: real)
    ensures DupRate(dupLines, totalLines) > threshold
            <==> (totalLines > 0 && dupLines as real > threshold * totalLines as real)
                 || (totalLines == 0 && threshold < 0.0)
  {
    if totalLines > 0 {
      QuotientAbove(dupLines as real, totalLines as real, threshold);
    }
  }

  // ---------------------------------------------------------------------
  // The exit code of each workflow's run.

  /** `any(len(occ) > 1 for occ in results.values())` (line 50). */
  predicate HasMulti(occurrences: map<string, nat>) {
    exists spec :: spec in occurrences && occurrences[spec] > 1
  }

  /** `0 if not fail_on_duplicates or dup_lines == 0 else 1`. */
  function FailExit(failOnDuplicates: bool, dupLines: nat): int {
    if !failOnDuplicates || dupLines == 0 then 0 else 1
  }

  /** SearchWorkflow.run (lines 34-51). */
  function SearchRun(cfg: RunConfig, occurrences: map<string, nat>): (code: int)
    ensures code == 0 || code == 1
    ensures code == 1 <==> cfg.failOnDuplicates && exists spec :: spec in occurrences && occurrences[spec] > 1
  {
    if cfg.failOnDuplicates && HasMulti(occurrences) then 1 else 0
  }

  /** TokenWorkflow.run (lines 57-76): an early 1 when the rate is above
      the threshold and the fail flag is set. */
  function TokenRun(cfg: RunConfig, scan: Report): (code: int)
    ensures code == 0 || code == 1
    ensures code == 1 <==> cfg.failOnDuplicates && (scan.dupLines > 0 || DupRate(scan.dupLines, scan.totalLines) > cfg.dupThreshold)
  {
    if DupRate(scan.dupLines, scan.totalLines) > cfg.dupThreshold && cfg.failOnDuplicates then 1
    else FailExit(cfg.failOnDuplicates, scan.dupLines)
  }

  /** PatternWorkflow.run (lines 82-97). */
  function PatternRun(cfg: RunConfig, scan: Report): (code: int)
    ensures code == 0 || code == 1
    ensures code == 1 <==> cfg.failOnDuplicates && scan.dupLines > 0
  {
    FailExit(cfg.failOnDuplicates, scan.dupLines)
  }

  /** DefaultWorkflow.run (lines 103-125): 3 when the skip gate fires. */
  function DefaultRun(cfg: RunConfig, scan: Report): (code: int)
    ensures code == 0 || code == 1 || code == 3
    ensures code == 3 <==> SkipRate(scan.skipped, scan.scanned) > 0.1
    ensures code == 1 <==> code != 3 && cfg.failOnDuplicates && scan.dupLines > 0
  {
    SkipGateIsRate(scan.skipped, scan.scanned);
    if SkipGate(scan.skipped, scan.scanned) then 3
    else FailExit(cfg.failOnDuplicates, scan.dupLines)
  }

  datatype Workflow = SearchFlow | TokenFlow | PatternFlow | DefaultFlow

  /** WorkflowFactory.create (lines 141-149). */
  function Create(cfg: RunConfig): (w: Workflow)
    ensures cfg.searchMode ==> w == SearchFlow
    ensures w == TokenFlow ==> cfg.tokenMode && !cfg.searchMode
    ensures w == PatternFlow ==> cfg.patternRegexes != [] && !cfg.tokenMode && !cfg.searchMode
    ensures w == DefaultFlow <==> !cfg.searchMode && !cfg.tokenMode && cfg.patternRegexes == []
  {
    if cfg.searchMode then SearchFlow
    else if cfg.tokenMode then TokenFlow
    else if cfg.patternRegexes != [] then PatternFlow
    else DefaultFlow
  }

  /** The selected workflow's `run`, each over its own finder's report. */
  function Run(w: Workflow, cfg: RunConfig, scans: Scans): int {
    match w
    case SearchFlow => SearchRun(cfg, scans.search)
    case TokenFlow => TokenRun(cfg, scans.token)
    case PatternFlow => PatternRun(cfg, scans.pattern)
    case DefaultFlow => DefaultRun(cfg, scans.definitions)
  }

  /** What the workflows return: 3 only from the definition workflow's skip
      gate; otherwise 1 exactly when the fail flag is set and the mode saw
      duplication, so 1 never comes without the flag. */
  lemma RunCodes(cfg: RunConfig, scans: Scans)
    ensures var code := Run(Create(cfg), cfg, scans);
      && (code == 0 || code == 1 || code == 3)
      && (code == 3 <==> Create(cfg) == DefaultFlow && SkipGate(scans.definitions.skipped, scans.definitions.scanned))
      && (code == 1 <==> cfg.failOnDuplicates && match Create(cfg)
            case SearchFlow => HasMulti(scans.search)
            case TokenFlow =>
              scans.token.dupLines > 0 || DupRate(scans.token.dupLines, scans.token.totalLines) > cfg.dupThreshold
            case PatternFlow => scans.pattern.dupLines > 0
            case DefaultFlow =>
              !SkipGate(scans.definitions.skipped, scans.definitions.scanned) && scans.definitions.dupLines > 0)
  {
  }

  /** With a non-negative threshold the token workflow's early return
      changes nothing: a rate above it means some line was duplicated. */
  lemma TokenEarlyReturnRedundant(cfg: RunConfig, scan: Report)
    requires cfg.dupThreshold >= 0.0
    ensures TokenRun(cfg, scan) == FailExit(cfg.failOnDuplicates, scan.dupLines)
  {
    DupRateAbove(scan.dupLines, scan.totalLines, cfg.dupThreshold);
    if scan.dupLines == 0 && scan.totalLines > 0 {
      assert 0.0 <= cfg.dupThreshold * scan.totalLines as real;
    }
  }

  /** A negative threshold with no lines at all: the rate 0 is above it,
      so a failing run returns 1 though nothing was duplicated. */
  lemma TokenNegativeThreshold(cfg: RunConfig)
    requires cfg.failOnDuplicates && cfg.dupThreshold < 0.0
    ensures TokenRun(cfg, Report(0, 0, 0, 0)) == 1
  {
  }

  /** One file scanned and two skipped: the definition workflow returns 3
      (tests/test_main.py:30-39). */
  lemma DefaultSkipExample(cfg: RunConfig)
    ensures DefaultRun(cfg, Report(2, 1, 10, 0)) == 3
    ensures SkipRate(2, 1) > 1.0 / 10.0
  {
    SkipGateIsRate(2, 1);
  }

  // ---------------------------------------------------------------------
  // _flatten_definitions (lines 127-134).

  /** (t, name) is a group of `results`. */
  predicate Listed(results: Defs, t: Kind, name: string) {
    t in results && name in results[t]
  }

  /** `flat` holds under "kind name" exactly the item list of every (kind,
      name) of `results`, and no other key. */
  ghost predicate FlatOf(flat: map<string, seq<Item>>, results: Defs) {
    && (forall t, name :: DefKey(t, name) in flat <==> Listed(results, t, name))
    && (forall t, name :: DefKey(t, name) in flat ==> flat[DefKey(t, name)] == results[t][name])
    && (forall k :: k in flat ==> exists t, name :: k == DefKey(t, name))
  }

  /** The inner loop (lines 131-133) over the names of kind `t`. */
  method FlattenKind(flat0: map<string, seq<Item>>, results: Defs, t: Kind) returns (flat: map<string, seq<Item>>)
    requires t in results
    ensures forall t', name :: t' != t ==> (DefKey(t', name) in flat <==> DefKey(t', name) in flat0)
    ensures forall t', name :: t' != t && DefKey(t', name) in flat ==> flat[DefKey(t', name)] == flat0[DefKey(t', name)]
    ensures forall name :: DefKey(t, name) in flat <==> DefKey(t, name) in flat0 || Listed(results, t, name)
    ensures forall name :: Listed(results, t, name) ==> flat[DefKey(t, name)] == results[t][name]
    ensures forall k :: k in flat ==> k in flat0 || exists name :: k == DefKey(t, name)
  {
    flat := flat0;
    var todo := results[t].Keys;
    while todo != {}
      invariant todo <= results[t].Keys
      invariant forall t', name :: t' != t ==> (DefKey(t', name) in flat <==> DefKey(t', name) in flat0)
      invariant forall t', name :: t' != t && DefKey(t', name) in flat ==> flat[DefKey(t', name)] == flat0[DefKey(t', name)]
      invariant forall name :: DefKey(t, name) in flat <==> DefKey(t, name) in flat0 || (Listed(results, t, name) && name !in todo)
      invariant forall name :: Listed(results, t, name) && name !in todo ==> flat[DefKey(t, name)] == results[t][name]
      invariant forall k :: k in flat ==> k in flat0 || exists name :: k == DefKey(t, name)
      decreases todo
    {
      var name :| name in todo;
      todo := todo - {name};
      var key := DefKey(t, name);
      forall t', n' | DefKey(t', n') == key ensures t' == t && n' == name {
        DefKeyInjective(t', n', t, name);
      }
      flat := flat[key := results[t][name]];
    }
  }

  /** `_flatten_definitions`: both loops. */
  method FlattenDefinitions(results: Defs) returns (flat: map<string, seq<Item>>)
    ensures FlatOf(flat, results)
  {
    flat := map[];
    var todo := results.Keys;
    while todo != {}
      invariant todo <= results.Keys
      invariant forall t, name :: DefKey(t, name) in flat <==> t !in todo && Listed(results, t, name)
      invariant forall t, name :: DefKey(t, name) in flat ==> flat[DefKey(t, name)] == results[t][name]
      invariant forall k :: k in flat ==> exists t, name :: k == DefKey(t, name)
      decreases todo
    {
      var t :| t in todo;
      todo := todo - {t};
      flat := FlattenKind(flat, results, t);
    }
  }

  /** The flattening is determined by the results: since no two (kind,
      name) pairs share a key, no entry overwrites another and the order
      of the loops does not matter. */
  lemma FlatOfUnique(a: map<string, seq<Item>>, b: map<string, seq<Item>>, results: Defs)
    requires FlatOf(a, results) && FlatOf(b, results)
    ensures a == b
  {
    forall k | k in a ensures k in b && a[k] == b[k] {
      FlatKeyAgrees(a, b, results, k);
    }
    forall k | k in b ensures k in a {
      FlatKeyAgrees(b, a, results, k);
    }
  }

  /** One key of one flattening, found in another. */
  lemma FlatKeyAgrees(a: map<string, seq<Item>>, b: map<string, seq<Item>>, results: Defs, k: string)
    requires FlatOf(a, results) && FlatOf(b, results) && k in a
    ensures k in b && a[k] == b[k]
  {
    var t, name :| k == DefKey(t, name);
  }

  /** Every flattened key is rendered with its kind as the entry type. */
  lemma FlatKeysRenderAsKind(flat: map<string, seq<Item>>, results: Defs, k: string)
    requires FlatOf(flat, results) && k in flat
    ensures exists t :: t in results && EntryType(k) == Some(KindName(t))
  {
    var t, name :| k == DefKey(t, name);
    DefinitionEntryType(t, name);
  }
}
