/** What the file processors share: the exclude-glob test on a file's name,
    the exclude-regex test on a definition's name, and "path:line"
    locations. */
module Paths {
  import opened Common
  import opened Strings

  /** `any(fnmatch.fnmatch(py_file.name, pat) for pat in exclude_patterns)`;
      `glob(name, pat)` stands for fnmatch. */
  predicate ExcludedFile(name: string, patterns: seq<string>, glob: (string, string) -> bool) {
    exists i :: 0 <= i < |patterns| && glob(name, patterns[i])
  }

  /** `any(re.match(pat, name) for pat in exclude_names)`; `matchAt(pat, name)`
      stands for a match anchored at the start of `name`. */
  predicate ExcludedName(name: string, patterns: seq<string>, matchAt: (string, string) -> bool) {
    exists i :: 0 <= i < |patterns| && matchAt(patterns[i], name)
  }

  /** f"{path}:{lineno}". */
  function Location(path: string, lineno: LineNo): string {
    path + ":" + NatStr(lineno)
  }

  /** A location is the path, a colon, and the decimal line number, which
      reads back as the line number. */
  lemma LocationParts(path: string, lineno: LineNo)
    ensures var loc := Location(path, lineno);
      |loc| > |path| + 1 && loc[..|path|] == path && loc[|path|] == ':'
      && (forall i :: |path| < i < |loc| ==> '0' <= loc[i] <= '9')
      && DigitsValue(loc[|path| + 1..]) == lineno
  {
    var loc := Location(path, lineno);
    assert loc[|path| + 1..] == NatStr(lineno);
    NatStrRoundTrip(lineno);
  }

  /** Different line numbers of the same file give different locations. */
  lemma LocationInjective(path: string, a: LineNo, b: LineNo)
    requires Location(path, a) == Location(path, b)
    ensures a == b
  {
    LocationParts(path, a);
    LocationParts(path, b);
  }
}
