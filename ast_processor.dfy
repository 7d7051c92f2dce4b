/** process_file_ast (src/duplifinder/ast_processor.py and the two-result copy
    in build/lib/duplifinder/processors.py): one file in definition mode. The
    file is skipped on an exclude glob or on any error; otherwise every
    visitor entry whose name no exclude regex matches is filed under its kind
    and name as ("path:lineno", snippet). */
module AstProcessor {
  import opened Common
  import opened Strings
  import MultiMap
  import opened AstVisitor
  import opened Paths
  import opened Seqs

  /** What opening and parsing the file gives: `tokenize.open` failing (an
      encoding or I/O error), or the `splitlines()` of the text together with
      the tree `ast.parse` builds, None when it raises SyntaxError or
      ValueError. */
  datatype Content = ReadFailed | Read(lines: seq<string>, tree: Option<Node>)

  /** `str(py_file)`, `py_file.name`, and what reading it gives. */
  datatype SourceFile = SourceFile(path: string, name: string, content: Content)

  /** The fields of Config the processor reads. */
  datatype AstConfig = AstConfig(types: set<Kind>, excludePatterns: seq<string>, excludeNames: seq<string>, preview: bool)

  /** kind -> name -> [(location, snippet)]. */
  type Defs = map<Kind, map<string, seq<Item>>>

  /** (definitions, skipped file or None, total_lines). */
  datatype AstResult = AstResult(defs: Defs, skipped: Option<string>, totalLines: nat)

  /** `({}, str_py_file, 0)`. */
  function Skip(path: string): AstResult {
    AstResult(map[], Some(path), 0)
  }

  // ---------------------------------------------------------------------
  // The preview snippet (the comprehensions of lines 47-51).

  /** `min(len(l) - len(l.lstrip()) for l in ls if l.strip())`, or None where
      Python raises ValueError because every line is blank. */
  function MinIndent(ls: seq<string>): (r: Option<nat>)
    ensures r.None? <==> forall i :: 0 <= i < |ls| ==> IsBlank(ls[i])
    ensures r.Some? ==> forall i :: 0 <= i < |ls| && !IsBlank(ls[i]) ==> r.value <= LeadingSpace(ls[i])
  {
    if ls == [] then None
    else
      var rest := MinIndent(ls[1..]);
      assert forall i :: 1 <= i < |ls| ==> ls[i] == ls[1..][i - 1];
      if IsBlank(ls[0]) then rest
      else if rest.Some? && rest.value < LeadingSpace(ls[0]) then rest
      else Some(LeadingSpace(ls[0]))
  }

  /** The minimum is reached: some non-blank line has exactly that indent. */
  lemma {:induction false} MinIndentReached(ls: seq<string>)
    requires MinIndent(ls).Some?
    ensures exists i :: 0 <= i < |ls| && !IsBlank(ls[i]) && LeadingSpace(ls[i]) == MinIndent(ls).value
  {
    var rest := MinIndent(ls[1..]);
    if IsBlank(ls[0]) || (rest.Some? && rest.value < LeadingSpace(ls[0])) {
      MinIndentReached(ls[1..]);
      var j :| 0 <= j < |ls[1..]| && !IsBlank(ls[1..][j]) && LeadingSpace(ls[1..][j]) == rest.value;
      assert ls[j + 1] == ls[1..][j];
    } else {
      assert !IsBlank(ls[0]) && LeadingSpace(ls[0]) == MinIndent(ls).value;
    }
  }

  /** `[line[k:] for line in ls]`. */
  function Dedent(ls: seq<string>, k: nat): seq<string> {
    seq(|ls|, i requires 0 <= i < |ls| => ls[i][Min(k, |ls[i]|)..])
  }

  /** `[f"{i + 1} {line}" for i, line in enumerate(ls)]`. */
  function Numbered(ls: seq<string>): seq<string> {
    seq(|ls|, i requires 0 <= i < |ls| => NatStr(i + 1) + " " + ls[i])
  }

  /** The snippet for a definition spanning `lineno..end` of `lines`; None
      where `min` of an empty sequence raises ValueError. */
  function Snippet(lines: seq<string>, lineno: LineNo, end: LineNo): Option<string> {
    var shown := Slice(lines, lineno - 1, end);
    if shown == [] then Some("")
    else match MinIndent(shown)
      case None => None
      case Some(k) => Some(Join(Numbered(Dedent(shown, k)), "\n"))
  }

  /** Cutting at most the indentation off a non-blank line removes only
      whitespace and keeps the rest of the line. */
  lemma DedentLine(line: string, k: nat)
    requires !IsBlank(line) && k <= LeadingSpace(line)
    ensures k < |line| && line == line[..k] + line[k..] && IsBlank(line[..k])
  {
    BlankIsAllLeading(line);
    IndentPrefixBlank(line, k);
  }

  /** Dedenting by the minimum indentation removes only whitespace from each
      non-blank line, and leaves some non-blank line starting with a
      non-whitespace character, so no smaller common indentation exists. */
  lemma DedentRemovesCommonIndent(ls: seq<string>)
    requires MinIndent(ls).Some?
    ensures var k := MinIndent(ls).value;
      var d := Dedent(ls, k);
      |d| == |ls|
      && (forall i :: 0 <= i < |ls| && !IsBlank(ls[i]) ==>
            k < |ls[i]| && ls[i] == ls[i][..k] + d[i] && IsBlank(ls[i][..k]))
      && (exists i :: 0 <= i < |ls| && !IsBlank(ls[i]) && |d[i]| > 0 && !IsSpace(d[i][0]))
  {
    var k := MinIndent(ls).value;
    var d := Dedent(ls, k);
    forall i | 0 <= i < |ls| && !IsBlank(ls[i])
      ensures k < |ls[i]| && ls[i] == ls[i][..k] + d[i] && IsBlank(ls[i][..k])
    {
      DedentLine(ls[i], k);
    }
    MinIndentReached(ls);
    var j :| 0 <= j < |ls| && !IsBlank(ls[j]) && LeadingSpace(ls[j]) == k;
    DedentLine(ls[j], k);
    assert d[j] == ls[j][k..];
  }

  /** Reading a snippet back: split at the newlines, it is one line per
      source line of the definition, the i-th being "i " and the dedented
      line. Lines from `splitlines` hold no newline. */
  lemma SnippetLines(lines: seq<string>, lineno: LineNo, end: LineNo)
    requires forall i :: 0 <= i < |lines| ==> '\n' !in lines[i]
    requires Snippet(lines, lineno, end).Some?
    requires Slice(lines, lineno - 1, end) != []
    ensures var shown := Slice(lines, lineno - 1, end);
      var parts := Split(Snippet(lines, lineno, end).value, '\n');
      |parts| == |shown|
      && forall i :: 0 <= i < |shown| ==>
           parts[i] == NatStr(i + 1) + " " + Dedent(shown, MinIndent(shown).value)[i]
  {
    var shown := Slice(lines, lineno - 1, end);
    var k := MinIndent(shown).value;
    var parts := Numbered(Dedent(shown, k));
    forall i | 0 <= i < |parts|
      ensures '\n' !in parts[i]
    {
      var line := shown[i];
      assert Dedent(shown, k)[i] == line[Min(k, |line|)..];
      var num := NatStr(i + 1);
      assert '\n' !in num;
    }
    JoinSplit(parts, '\n');
  }

  // ---------------------------------------------------------------------
  // Filing the visitor entries.

  /** What the loop over entries needs: the path, the lines used for
      previews (`lines` when preview is on, [] otherwise) and the name
      filter. */
  datatype Scan = Scan(path: string, shown: seq<string>, excludeNames: seq<string>, matchAt: (string, string) -> bool)

  /** The (location, snippet) pair an entry gives, or None where building
      its snippet raises. */
  function ItemFor(e: Entry, sc: Scan): Option<Item> {
    var loc := Location(sc.path, e.lineno);
    if sc.shown == [] then Some(Item(loc, ""))
    else match Snippet(sc.shown, e.lineno, e.endLineno)
      case None => None
      case Some(s) => Some(Item(loc, s))
  }

  predicate Kept(e: Entry, sc: Scan) {
    !ExcludedName(e.name, sc.excludeNames, sc.matchAt)
  }

  /** `definitions[t]` after the loop over the entries `es` of kind t, or
      None once an entry raised. */
  function Grouped(es: seq<Entry>, sc: Scan): Option<map<string, seq<Item>>> {
    if es == [] then Some(map[])
    else
      var prev := Grouped(es[..|es| - 1], sc);
      var e := es[|es| - 1];
      if prev.None? then None
      else if !Kept(e, sc) then prev
      else match ItemFor(e, sc)
        case None => None
        case Some(it) => Some(MultiMap.Append(prev.value, e.name, it))
  }

  /** No kept entry's snippet raises. */
  predicate AllItems(es: seq<Entry>, sc: Scan) {
    forall i :: 0 <= i < |es| && Kept(es[i], sc) ==> ItemFor(es[i], sc).Some?
  }

  /** The items an entry list gives under `name`: one per kept entry with
      that name, in order. */
  function ItemsNamed(es: seq<Entry>, name: string, sc: Scan): seq<Item>
    requires AllItems(es, sc)
  {
    if es == [] then []
    else
      var e := es[|es| - 1];
      assert AllItems(es[..|es| - 1], sc) by {
        assert forall i :: 0 <= i < |es| - 1 ==> es[..|es| - 1][i] == es[i];
      }
      ItemsNamed(es[..|es| - 1], name, sc)
        + (if Kept(e, sc) && e.name == name then [ItemFor(e, sc).value] else [])
  }

  /** Grouping fails exactly when a kept entry's snippet fails. */
  lemma {:induction false} GroupedSucceeds(es: seq<Entry>, sc: Scan)
    ensures Grouped(es, sc).Some? <==> AllItems(es, sc)
  {
    if es != [] {
      var init := es[..|es| - 1];
      GroupedSucceeds(init, sc);
      assert forall i :: 0 <= i < |init| ==> init[i] == es[i];
    }
  }

  /** Under every name the grouping holds one item per kept entry of that
      name, in entry order, and it holds no name without one. */
  lemma {:induction false} GroupedContents(es: seq<Entry>, name: string, sc: Scan)
    requires AllItems(es, sc)
    ensures Grouped(es, sc).Some?
    ensures MultiMap.Get(Grouped(es, sc).value, name) == ItemsNamed(es, name, sc)
    ensures name in Grouped(es, sc).value ==> ItemsNamed(es, name, sc) != []
  {
    GroupedSucceeds(es, sc);
    if es != [] {
      var init := es[..|es| - 1];
      assert AllItems(init, sc) by {
        assert forall i :: 0 <= i < |init| ==> init[i] == es[i];
      }
      GroupedContents(init, name, sc);
    }
  }

  /** The entries named `name`, in order. */
  function EntriesNamed(es: seq<Entry>, name: string): (r: seq<Entry>)
    ensures |r| <= |es|
    ensures forall i :: 0 <= i < |r| ==> r[i].name == name
  {
    if es == [] then []
    else EntriesNamed(es[..|es| - 1], name) + (if es[|es| - 1].name == name then [es[|es| - 1]] else [])
  }

  /** Every entry under an excluded name is dropped. */
  lemma {:induction false} ItemsNamedExcluded(es: seq<Entry>, name: string, sc: Scan)
    requires AllItems(es, sc)
    requires ExcludedName(name, sc.excludeNames, sc.matchAt)
    ensures ItemsNamed(es, name, sc) == []
  {
    if es != [] {
      var init := es[..|es| - 1];
      assert AllItems(init, sc) by {
        assert forall i :: 0 <= i < |init| ==> init[i] == es[i];
      }
      ItemsNamedExcluded(init, name, sc);
    }
  }

  /** Under a name no exclude pattern matches, every entry of that name is
      kept, in order, as its location and snippet. */
  lemma {:induction false} ItemsNamedKept(es: seq<Entry>, name: string, sc: Scan)
    requires AllItems(es, sc)
    requires !ExcludedName(name, sc.excludeNames, sc.matchAt)
    ensures var r := ItemsNamed(es, name, sc);
      var named := EntriesNamed(es, name);
      |r| == |named| && forall i :: 0 <= i < |r| ==> ItemFor(named[i], sc) == Some(r[i])
  {
    if es != [] {
      var init := es[..|es| - 1];
      assert AllItems(init, sc) by {
        assert forall i :: 0 <= i < |init| ==> init[i] == es[i];
      }
      ItemsNamedKept(init, name, sc);
    }
  }

  /** Once an entry raised, later entries do not bring grouping back. */
  lemma {:induction false} GroupedFailureSticks(es: seq<Entry>, j: nat, sc: Scan)
    requires j <= |es|
    requires Grouped(es[..j], sc).None?
    ensures Grouped(es, sc).None?
    decreases |es| - j
  {
    if j < |es| {
      assert es[..j + 1][..j] == es[..j];
      GroupedFailureSticks(es, j + 1, sc);
    } else {
      assert es[..j] == es;
    }
  }

  // ---------------------------------------------------------------------
  // The whole file.

  function ScanFor(file: SourceFile, cfg: AstConfig, matchAt: (string, string) -> bool): Scan
    requires file.content.Read?
  {
    Scan(file.path, if cfg.preview then file.content.lines else [], cfg.excludeNames, matchAt)
  }

  /** The per-kind grouping of a walk: Some when no kept entry of a
      requested kind raises. */
  predicate AllGrouped(walk: seq<Record>, types: set<Kind>, sc: Scan) {
    forall k :: k in types ==> Grouped(MultiMap.Select(walk, k), sc).Some?
  }

  /** The definitions dictionary of lines 39-52 for a walk, or None once a
      snippet raised. */
  function GroupedKinds(walk: seq<Record>, types: set<Kind>, sc: Scan): Option<Defs> {
    if AllGrouped(walk, types, sc)
    then Some(map k | k in types :: Grouped(MultiMap.Select(walk, k), sc).value)
    else None
  }

  /** What process_file_ast returns for a file. */
  function ProcessAst(file: SourceFile, cfg: AstConfig, glob: (string, string) -> bool, matchAt: (string, string) -> bool): (r: AstResult)
    ensures ExcludedFile(file.name, cfg.excludePatterns, glob) ==> r == Skip(file.path)
    ensures r.skipped.Some? ==> r.skipped == Some(file.path) && r.defs == map[] && r.totalLines == 0
    ensures r.skipped.None? ==> file.content.Read? && r.defs.Keys == cfg.types && r.totalLines == |file.content.lines|
  {
    if ExcludedFile(file.name, cfg.excludePatterns, glob) then Skip(file.path)
    else if file.content.ReadFailed? || file.content.tree.None? then Skip(file.path)
    else match GroupedKinds(Walk(file.content.tree.value, cfg.types), cfg.types, ScanFor(file, cfg, matchAt))
      case None => Skip(file.path)
      case Some(defs) => AstResult(defs, None, |file.content.lines|)
  }

  /** The kinds the visitor recorded are among the requested ones. */
  lemma VisitedKindsRequested(n: Node, types: set<Kind>)
    ensures MultiMap.AppendAll(map[], Walk(n, types)).Keys <= types
  {
    var walk := Walk(n, types);
    MultiMap.AppendAllKeys(map[], walk);
    RecordsRequested(n, types);
  }

  /** The visitor's list for a kind is the walk's entries of that kind. */
  lemma VisitedKind(n: Node, types: set<Kind>, k: Kind)
    ensures MultiMap.Get(MultiMap.AppendAll(map[], Walk(n, types)), k) == MultiMap.Select(Walk(n, types), k)
  {
    var empty: map<Kind, seq<Entry>> := map[];
    MultiMap.AppendAllGet(empty, Walk(n, types), k);
  }

  /** The inner loop of lines 41-52 for one kind's entries: None as soon as
      a snippet raises. */
  method GroupEntries(es: seq<Entry>, sc: Scan) returns (r: Option<map<string, seq<Item>>>)
    ensures r == Grouped(es, sc)
  {
    var acc: map<string, seq<Item>> := map[];
    var j := 0;
    assert es[..0] == [];
    while j < |es|
      invariant 0 <= j <= |es|
      invariant Grouped(es[..j], sc) == Some(acc)
    {
      var e := es[j];
      assert es[..j + 1][..j] == es[..j] && es[..j + 1][j] == e;
      var excluded := false;
      var p := 0;
      while p < |sc.excludeNames|
        invariant 0 <= p <= |sc.excludeNames|
        invariant excluded <==> exists q :: 0 <= q < p && sc.matchAt(sc.excludeNames[q], e.name)
      {
        if sc.matchAt(sc.excludeNames[p], e.name) {
          excluded := true;
        }
        p := p + 1;
      }
      if !excluded {
        var it := ItemFor(e, sc);
        if it.None? {
          GroupedFailureSticks(es, j + 1, sc);
          return None;
        }
        acc := MultiMap.Append(acc, e.name, it.value);
      }
      j := j + 1;
    }
    assert es[..j] == es;
    r := Some(acc);
  }

  /** The three kinds, in the order the visitor first records them. */
  lemma AllKindsListed()
    ensures forall k: Kind :: k in [Class, Def, AsyncDef]
  {
    forall k: Kind ensures k in [Class, Def, AsyncDef] {
      assert k == Class || k == Def || k == AsyncDef;
    }
  }

  /** A dictionary holding every requested kind's grouping is the result of
      grouping the walk. */
  lemma GroupsComplete(defs: Defs, walk: seq<Record>, types: set<Kind>, sc: Scan)
    requires defs.Keys == types
    requires forall k :: k in types ==> Grouped(MultiMap.Select(walk, k), sc) == Some(defs[k])
    ensures GroupedKinds(walk, types, sc) == Some(defs)
  {
    assert AllGrouped(walk, types, sc);
    assert defs == map k | k in types :: Grouped(MultiMap.Select(walk, k), sc).value;
  }

  /** Lines 39-52: the loop over the visitor's kinds, given the visitor's
      definitions for `walk`. */
  method GroupKinds(visited: map<Kind, seq<Entry>>, ghost walk: seq<Record>, types: set<Kind>, sc: Scan)
    returns (r: Option<Defs>)
    requires visited.Keys <= types
    requires forall k :: MultiMap.Get(visited, k) == MultiMap.Select(walk, k)
    ensures r == GroupedKinds(walk, types, sc)
  {
    var defs: Defs := map k | k in types :: map[];
    var kinds := [Class, Def, AsyncDef];
    var n := 0;
    while n < |kinds|
      invariant 0 <= n <= |kinds|
      invariant defs.Keys == types
      invariant forall k :: k in types && k in kinds[..n] ==> Grouped(MultiMap.Select(walk, k), sc) == Some(defs[k])
      invariant forall k :: k in types && k !in kinds[..n] ==> defs[k] == map[]
    {
      var k := kinds[n];
      if k in visited {
        assert visited[k] == MultiMap.Select(walk, k) by {
          assert MultiMap.Get(visited, k) == visited[k];
        }
        var g := GroupEntries(visited[k], sc);
        if g.None? {
          return None;
        }
        defs := defs[k := g.value];
      } else if k in types {
        assert MultiMap.Select(walk, k) == [] by {
          assert MultiMap.Get(visited, k) == [];
        }
        assert Grouped([], sc) == Some(map[]);
      }
      assert kinds[..n + 1] == kinds[..n] + [k];
      n := n + 1;
    }
    assert kinds[..n] == kinds;
    AllKindsListed();
    GroupsComplete(defs, walk, types, sc);
    r := Some(defs);
  }

  /** process_file_ast (lines 21-62): the exclude check, then reading,
      parsing, visiting, and filing each kind's entries; any failure skips
      the file. */
  method ProcessFileAst(file: SourceFile, cfg: AstConfig, glob: (string, string) -> bool, matchAt: (string, string) -> bool)
    returns (r: AstResult)
    ensures r == ProcessAst(file, cfg, glob, matchAt)
  {
    var i := 0;
    while i < |cfg.excludePatterns|
      invariant 0 <= i <= |cfg.excludePatterns|
      invariant forall j :: 0 <= j < i ==> !glob(file.name, cfg.excludePatterns[j])
    {
      if glob(file.name, cfg.excludePatterns[i]) {
        return Skip(file.path);
      }
      i := i + 1;
    }
    if file.content.ReadFailed? || file.content.tree.None? {
      return Skip(file.path);
    }
    var tree := file.content.tree.value;
    var visitor := new DefinitionVisitor(cfg.types);
    visitor.Visit(tree);
    ghost var walk := Walk(tree, cfg.types);
    assert visitor.definitions.Keys <= cfg.types by {
      VisitedKindsRequested(tree, cfg.types);
    }
    assert forall k :: MultiMap.Get(visitor.definitions, k) == MultiMap.Select(walk, k) by {
      forall k ensures MultiMap.Get(visitor.definitions, k) == MultiMap.Select(walk, k) {
        VisitedKind(tree, cfg.types, k);
      }
    }
    var g := GroupKinds(visitor.definitions, walk, cfg.types, ScanFor(file, cfg, matchAt));
    if g.None? {
      return Skip(file.path);
    }
    r := AstResult(g.value, None, |file.content.lines|);
  }

  /** The older build's process_file_ast (build/lib/duplifinder/processors.py,
      lines 19-54): the same processing without the line count. */
  method ProcessFileAstLegacy(file: SourceFile, cfg: AstConfig, glob: (string, string) -> bool, matchAt: (string, string) -> bool)
    returns (defs: Defs, skipped: Option<string>)
    ensures defs == ProcessAst(file, cfg, glob, matchAt).defs
    ensures skipped == ProcessAst(file, cfg, glob, matchAt).skipped
  {
    var r := ProcessFileAst(file, cfg, glob, matchAt);
    defs, skipped := r.defs, r.skipped;
  }

  /** The outcome of a file: skipped with no definitions and no lines, or
      not skipped with a (possibly empty) dictionary for exactly the
      requested kinds, no name without an item, and the file's line count.
      The file is skipped exactly when it is excluded, unreadable,
      unparsable, or a kept entry's snippet raises. */
  lemma ProcessAstOutcome(file: SourceFile, cfg: AstConfig, glob: (string, string) -> bool, matchAt: (string, string) -> bool)
    ensures var r := ProcessAst(file, cfg, glob, matchAt);
      (r.skipped.None? <==>
        !ExcludedFile(file.name, cfg.excludePatterns, glob) && file.content.Read? && file.content.tree.Some?
        && AllGrouped(Walk(file.content.tree.value, cfg.types), cfg.types, ScanFor(file, cfg, matchAt)))
      && (r.skipped.Some? ==> r == AstResult(map[], Some(file.path), 0))
      && (r.skipped.None? ==>
            r.defs.Keys == cfg.types && r.totalLines == |file.content.lines|
            && forall k, name :: k in r.defs && name in r.defs[k] ==> r.defs[k][name] != [])
  {
    var r := ProcessAst(file, cfg, glob, matchAt);
    if r.skipped.None? {
      var walk := Walk(file.content.tree.value, cfg.types);
      var sc := ScanFor(file, cfg, matchAt);
      forall k, name | k in r.defs && name in r.defs[k]
        ensures r.defs[k][name] != []
      {
        var es := MultiMap.Select(walk, k);
        GroupedSucceeds(es, sc);
        GroupedContents(es, name, sc);
      }
    }
  }

  /** On success, the dictionary of kind k holds under each name exactly the
      items of the visitor's entries of kind k with that name: none when an
      exclude regex matches the name, otherwise one per entry in visitor
      order, each at "path:lineno". */
  lemma ProcessAstItems(file: SourceFile, cfg: AstConfig, glob: (string, string) -> bool, matchAt: (string, string) -> bool, k: Kind, name: string)
    requires ProcessAst(file, cfg, glob, matchAt).skipped.None?
    requires k in cfg.types
    ensures var r := ProcessAst(file, cfg, glob, matchAt);
      var named := EntriesNamed(MultiMap.Select(Walk(file.content.tree.value, cfg.types), k), name);
      var items := MultiMap.Get(r.defs[k], name);
      (ExcludedName(name, cfg.excludeNames, matchAt) ==> items == [])
      && (!ExcludedName(name, cfg.excludeNames, matchAt) ==>
            |items| == |named|
            && forall i :: 0 <= i < |items| ==>
                 items[i].loc == Location(file.path, named[i].lineno)
                 && (!cfg.preview ==> items[i].snippet == ""))
  {
    var walk := Walk(file.content.tree.value, cfg.types);
    var sc := ScanFor(file, cfg, matchAt);
    var es := MultiMap.Select(walk, k);
    GroupedSucceeds(es, sc);
    GroupedContents(es, name, sc);
    if ExcludedName(name, cfg.excludeNames, matchAt) {
      ItemsNamedExcluded(es, name, sc);
    } else {
      ItemsNamedKept(es, name, sc);
    }
  }

  /** Without preview no snippet is built, so a readable, parsable file
      that no glob excludes is never skipped. */
  lemma NoPreviewNotSkipped(file: SourceFile, cfg: AstConfig, glob: (string, string) -> bool, matchAt: (string, string) -> bool)
    requires !cfg.preview && file.content.Read? && file.content.tree.Some?
    requires !ExcludedFile(file.name, cfg.excludePatterns, glob)
    ensures ProcessAst(file, cfg, glob, matchAt).skipped.None?
  {
    var walk := Walk(file.content.tree.value, cfg.types);
    var sc := ScanFor(file, cfg, matchAt);
    forall k | k in cfg.types
      ensures Grouped(MultiMap.Select(walk, k), sc).Some?
    {
      GroupedSucceeds(MultiMap.Select(walk, k), sc);
    }
  }

  // ---------------------------------------------------------------------
  // The sample file of tests/conftest.py.

  function FixtureLines(): seq<string> {
    ["class SingletonClass:", "    def method(self):", "        pass", "", "def helper():", "    pass"]
  }

  function FixtureFile(path: string): SourceFile {
    SourceFile(path, "test.py", Read(FixtureLines(), Some(Fixture())))
  }

  /** The visitor's entries of each kind on the sample file. */
  lemma FixtureSelect()
    ensures MultiMap.Select(Walk(Fixture(), AllKinds), Class) == [Entry("SingletonClass", 1, 3, "")]
    ensures MultiMap.Select(Walk(Fixture(), AllKinds), Def)
      == [Entry("SingletonClass.method", 2, 3, ""), Entry("method", 2, 3, ""), Entry("helper", 5, 6, "")]
    ensures MultiMap.Select(Walk(Fixture(), AllKinds), AsyncDef) == []
  {
    var walk := Walk(Fixture(), AllKinds);
    FixtureDefinitions();
    VisitedKind(Fixture(), AllKinds, Class);
    VisitedKind(Fixture(), AllKinds, Def);
    VisitedKind(Fixture(), AllKinds, AsyncDef);
  }

  /** Grouping one more entry without preview or name filters files it
      under its name. */
  lemma GroupSnoc(es: seq<Entry>, e: Entry, sc: Scan, m: map<string, seq<Item>>)
    requires sc.shown == [] && sc.excludeNames == []
    requires Grouped(es, sc) == Some(m)
    ensures Grouped(es + [e], sc) == Some(MultiMap.Append(m, e.name, Item(Location(sc.path, e.lineno), "")))
  {
    assert (es + [e])[..|es|] == es;
  }

  /** Grouping one more entry under a name not yet present, without
      preview or name filters, adds that name with a single item. */
  lemma GroupFresh(es: seq<Entry>, e: Entry, sc: Scan, m: map<string, seq<Item>>)
    requires sc.shown == [] && sc.excludeNames == []
    requires Grouped(es, sc) == Some(m) && e.name !in m
    ensures Grouped(es + [e], sc) == Some(m[e.name := [Item(Location(sc.path, e.lineno), "")]])
  {
    GroupSnoc(es, e, sc, m);
    assert MultiMap.Get(m, e.name) + [Item(Location(sc.path, e.lineno), "")] == [Item(Location(sc.path, e.lineno), "")];
  }

  /** Grouping three differently named entries without preview or name
      filters gives one item per name. */
  lemma GroupThree(e0: Entry, e1: Entry, e2: Entry, sc: Scan)
    requires sc.shown == [] && sc.excludeNames == []
    requires e0.name != e1.name && e0.name != e2.name && e1.name != e2.name
    ensures Grouped([e0, e1, e2], sc) == Some(map[
      e0.name := [Item(Location(sc.path, e0.lineno), "")],
      e1.name := [Item(Location(sc.path, e1.lineno), "")],
      e2.name := [Item(Location(sc.path, e2.lineno), "")]])
  {
    var m1 := map[e0.name := [Item(Location(sc.path, e0.lineno), "")]];
    var m2 := m1[e1.name := [Item(Location(sc.path, e1.lineno), "")]];
    GroupOne(e0, sc);
    GroupFresh([e0], e1, sc, m1);
    assert [e0] + [e1] == [e0, e1];
    GroupFresh([e0, e1], e2, sc, m2);
    assert [e0, e1] + [e2] == [e0, e1, e2];
  }

  /** Grouping a single entry without preview or name filters. */
  lemma GroupOne(e: Entry, sc: Scan)
    requires sc.shown == [] && sc.excludeNames == []
    ensures Grouped([e], sc) == Some(map[e.name := [Item(Location(sc.path, e.lineno), "")]])
  {
    var none: seq<Entry> := [];
    assert Grouped(none, sc) == Some(map[]);
    GroupFresh(none, e, sc, map[]);
    assert none + [e] == [e];
  }

  /** The dictionary of all three kinds, from each kind's grouping. */
  lemma AllKindsGrouped(walk: seq<Record>, sc: Scan, mc: map<string, seq<Item>>, md: map<string, seq<Item>>, ma: map<string, seq<Item>>)
    requires Grouped(MultiMap.Select(walk, Class), sc) == Some(mc)
    requires Grouped(MultiMap.Select(walk, Def), sc) == Some(md)
    requires Grouped(MultiMap.Select(walk, AsyncDef), sc) == Some(ma)
    ensures GroupedKinds(walk, AllKinds, sc) == Some(map[Class := mc, Def := md, AsyncDef := ma])
  {
    assert AllGrouped(walk, AllKinds, sc) by {
      forall k | k in AllKinds ensures Grouped(MultiMap.Select(walk, k), sc).Some? {
        assert k == Class || k == Def || k == AsyncDef;
      }
    }
    var g := map k | k in AllKinds :: Grouped(MultiMap.Select(walk, k), sc).value;
    assert g.Keys == {Class, Def, AsyncDef};
    assert g == map[Class := mc, Def := md, AsyncDef := ma];
  }

  /** A file that is neither excluded nor unreadable, whose kinds all
      group, gives those groups. */
  lemma ProcessedAs(file: SourceFile, cfg: AstConfig, glob: (string, string) -> bool, matchAt: (string, string) -> bool, defs: Defs)
    requires !ExcludedFile(file.name, cfg.excludePatterns, glob) && file.content.Read? && file.content.tree.Some?
    requires GroupedKinds(Walk(file.content.tree.value, cfg.types), cfg.types, ScanFor(file, cfg, matchAt)) == Some(defs)
    ensures ProcessAst(file, cfg, glob, matchAt) == AstResult(defs, None, |file.content.lines|)
  {
  }

  /** On the sample file with all kinds and no exclusions the result is not
      skipped, counts 6 lines, and holds SingletonClass under "class" and
      SingletonClass.method, method and helper under "def". */
  lemma FixtureProcessed(path: string, glob: (string, string) -> bool, matchAt: (string, string) -> bool)
    ensures var r := ProcessAst(FixtureFile(path), AstConfig(AllKinds, [], [], false), glob, matchAt);
      r.skipped.None? && r.totalLines == 6
      && r.defs == map[
        Class := map["SingletonClass" := [Item(Location(path, 1), "")]],
        Def := map[
          "SingletonClass.method" := [Item(Location(path, 2), "")],
          "method" := [Item(Location(path, 2), "")],
          "helper" := [Item(Location(path, 5), "")]],
        AsyncDef := map[]]
  {
    var cfg := AstConfig(AllKinds, [], [], false);
    var file := FixtureFile(path);
    var sc := ScanFor(file, cfg, matchAt);
    var walk := Walk(Fixture(), AllKinds);
    var mc := map["SingletonClass" := [Item(Location(path, 1), "")]];
    var md := map["SingletonClass.method" := [Item(Location(path, 2), "")], "method" := [Item(Location(path, 2), "")], "helper" := [Item(Location(path, 5), "")]];
    var empty: map<string, seq<Item>> := map[];
    assert GroupedKinds(walk, AllKinds, sc) == Some(map[Class := mc, Def := md, AsyncDef := empty]) by {
      FixtureSelect();
      GroupOne(Entry("SingletonClass", 1, 3, ""), sc);
      GroupThree(Entry("SingletonClass.method", 2, 3, ""), Entry("method", 2, 3, ""), Entry("helper", 5, 6, ""), sc);
      var none: seq<Entry> := [];
      assert Grouped(none, sc) == Some(empty);
      AllKindsGrouped(walk, sc, mc, md, empty);
    }
    ProcessedAs(file, cfg, glob, matchAt, map[Class := mc, Def := md, AsyncDef := empty]);
  }
}
