/** The command's entry point (src/duplifinder/main.py): a function from
    whether the configuration could be built, the settings, and what the
    finder of the selected mode reports, to the process exit status. */
module EntryPoint {
  import opened Application

  /** `main` (lines 14-58): 2 for a configuration error, then the mode
      chosen in the order search, token, pattern, definitions. */
  function Main(configBuilt: bool, cfg: RunConfig, scans: Scans): (code: int)
    ensures code == 2 <==> !configBuilt
    ensures code == 0 || code == 1 || code == 2 || code == 3
  {
    if !configBuilt then 2
    else if cfg.searchMode then
      if cfg.failOnDuplicates && HasMulti(scans.search) then 1 else 0
    else if cfg.tokenMode then
      var t := scans.token;
      if DupRate(t.dupLines, t.totalLines) > cfg.dupThreshold then
        if cfg.failOnDuplicates then 1 else 0
      else FailExit(cfg.failOnDuplicates, t.dupLines)
    else if cfg.patternRegexes != [] then
      FailExit(cfg.failOnDuplicates, scans.pattern.dupLines)
    else
      var d := scans.definitions;
      if SkipGate(d.skipped, d.scanned) then 3
      else FailExit(cfg.failOnDuplicates, d.dupLines)
  }

  /** Once the configuration is built, `main` exits with the code the
      workflow that WorkflowFactory.create selects returns, although the
      token branches differ in shape (main exits 0 early where the
      workflow renders first). */
  lemma MainAgreesWithWorkflows(cfg: RunConfig, scans: Scans)
    ensures Main(true, cfg, scans) == Run(Create(cfg), cfg, scans)
  {
  }

  /** The exit statuses: 2 exactly on a configuration error; 3 exactly in
      definition mode past the skip gate; 1 only with the fail flag; and
      0 whenever the flag is off and the gate does not fire. */
  lemma MainCodes(configBuilt: bool, cfg: RunConfig, scans: Scans)
    ensures var code := Main(configBuilt, cfg, scans);
      && (code == 0 || code == 1 || code == 2 || code == 3)
      && (code == 2 <==> !configBuilt)
      && (code == 3 <==> configBuilt && Create(cfg) == DefaultFlow
                         && SkipGate(scans.definitions.skipped, scans.definitions.scanned))
      && (code == 1 ==> cfg.failOnDuplicates)
      && (configBuilt && !cfg.failOnDuplicates && code != 3 ==> code == 0)
  {
    if configBuilt {
      MainAgreesWithWorkflows(cfg, scans);
      RunCodes(cfg, scans);
    }
  }

  /** Search mode fails iff the flag is set and some spec was found more
      than once (lines 30-32). */
  lemma SearchExit(cfg: RunConfig, scans: Scans)
    requires cfg.searchMode
    ensures Main(true, cfg, scans) == 1 <==> cfg.failOnDuplicates && exists spec :: spec in scans.search && scans.search[spec] > 1
    ensures Main(true, cfg, scans) != 1 ==> Main(true, cfg, scans) == 0
  {
  }

  /** A duplication rate above the threshold ends token mode at once, with
      1 under the fail flag and 0 without it (lines 36-38). */
  lemma TokenAlert(cfg: RunConfig, scans: Scans)
    requires !cfg.searchMode && cfg.tokenMode
    requires scans.token.totalLines > 0
    requires scans.token.dupLines as real > cfg.dupThreshold * scans.token.totalLines as real
    ensures Main(true, cfg, scans) == (if cfg.failOnDuplicates then 1 else 0)
  {
    DupRateAbove(scans.token.dupLines, scans.token.totalLines, cfg.dupThreshold);
  }

  /** Definition mode with one file scanned and two skipped exits 3, and
      a configuration error exits 2, whatever was found
      (tests/test_main.py:21-39). */
  lemma MainExamples(cfg: RunConfig, scans: Scans)
    requires !cfg.searchMode && !cfg.tokenMode && cfg.patternRegexes == []
    requires scans.definitions.skipped == 2 && scans.definitions.scanned == 1
    ensures Main(true, cfg, scans) == 3
    ensures Main(false, cfg, scans) == 2
  {
  }
}
