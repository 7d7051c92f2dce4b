# duplifinder detection core in Dafny

duplifinder scans a Python project and reports duplication in four modes:

- definitions: classes, functions and async functions that share a name;
- pattern: lines that match given regular expressions;
- token: pairs of definitions whose token streams are similar;
- search: occurrences of given definitions.

This project models the part that turns already-parsed input into results and exit codes:

- `AstVisitor`: the definition visitor (`EnhancedDefinitionVisitor`). It is a class whose `definitions` map is appended to during a recursive walk.
- `AstProcessor`, `TextProcessor`, `TokenProcessor`: the per-file processors in their current three-result versions. `AstProcessor` and `TextProcessor` also have the older two-result versions.
- `Finder`: the file-discovery predicate and the sequential folds of the older finder.
- `Duplicates`: `compute_duplicates`, with the minimum-occurrence, name and kind-scoped regex filters and sorting, and the older `main`'s fail exit.
- `Application`: the workflows' rate and exit-code logic, the flattening of definitions and the workflow factory.
- `EntryPoint`: the `main` of the current build, as a function from its inputs to an exit status.
- `DuplicateRenderer`: the normalisation, the minimum-occurrence filter and how `render_duplicates` ends.
- `Cli`: comma-list parsing, setting precedence, splitting `--find` items, and configuration validation in the older CLI.

Shared modules:

- `Common`: kinds, line numbers, items.
- `Strings`: Python whitespace, `strip`, decimal rendering, `split`/`join`.
- `MultiMap`: the `defaultdict(list)` appends.
- `Sorting`: Python string order and `sorted`.
- `Seqs`: slicing.
- `Paths`: exclusion predicates and `path:line` locations.

Foreign pieces are function-typed parameters, so their behaviour is left open:

- `fnmatch` → `glob`;
- `re.match` → `matchAt`;
- `re.search` → `search`;
- `re.compile` succeeding → `compiles`;
- `Path.is_dir` → `isDir`;
- `difflib.SequenceMatcher.ratio` → `ratio`;
- the tokenizer → `tokenize`;
- `{:.2%}` → `percent`.

Everything the program reads is an input:

- file contents: the lines, plus the parse tree or a parse failure;
- token streams;
- the per-file results the finder folds over;
- the counts the finders return.

## Notes on the source

- Where the older CLI and the description of the settings disagree, the model follows the code. `min` is `args.min or config_dict.get("min", 2)`. A falsy value read from the configuration file is kept; there is no further fallback to 2. The parser gives `--min` a default of 2 (build/lib/duplifinder/cli.py:36), so the file's `min` is read only when `--min 0` is passed. `Cli.Args` holds the value the parser produced. See `Cli.MinSetting` and `Cli.BuildConfigPrecedence`.
- `tests/test_processors.py:62-68` expects no match for the line `"No class here"` and the pattern `"class"`. But the word occurs in that line, and `process_file_text` files a location for it. `TextProcessor.NoClassHereMatches` states what the code returns.
- A method of a class is recorded twice, once as `Class.method` and once under its bare name, because `generic_visit` re-enters it. The model keeps this, as the code does (`AstVisitor.FunctionEntryCount`, `AstVisitor.QualifiedBeforeBare`).
- In token mode, `int(threshold*100)` truncates toward zero. `TokenProcessor.Trunc` writes this out over `real`.

## Model

| member | source | states |
|---|---|---|
| AstVisitor.KindOf | src/duplifinder/config.py:17-21 | a class node has kind class, a function node def, an async function node async_def, and any other node none |
| AstVisitor.DefinitionVisitor.constructor | src/duplifinder/ast_visitor.py:15-17 | starts with an empty definitions map and the requested kinds |
| AstVisitor.DefinitionVisitor.Visit | src/duplifinder/ast_visitor.py:19-38 | visiting a node appends exactly that node's walk to `definitions`, in walk order |
| AstVisitor.DefinitionVisitor.VisitClassDef | src/duplifinder/ast_visitor.py:19-31 | a class visit appends the class entry, then the qualified member entries, then what generic_visit appends |
| AstVisitor.DefinitionVisitor.RecordClassAndMembers | src/duplifinder/ast_visitor.py:20-30 | before generic_visit: the class entry if "class" is requested, then one "Class.member" entry per function or async function directly in the body whose kind is requested |
| AstVisitor.DefinitionVisitor.GenericVisit | src/duplifinder/ast_visitor.py:33-38 | a function or async function of a requested kind is recorded under its bare name (never a class), then every child is visited |
| AstVisitor.DefinitionVisitor.VisitChildren | src/duplifinder/ast_visitor.py:38 | children are visited in order, and their appends follow one another |
| AstVisitor.ClassEntriesExact | src/duplifinder/ast_visitor.py:20-22 | with "class" requested, every class node of the tree gives exactly one class entry (name, lineno, end or lineno, ""), in document order; otherwise there are none |
| AstVisitor.FunctionEntryCount | src/duplifinder/ast_visitor.py:24-38 | entries under def/async_def = nodes of that kind anywhere + nodes of that kind directly in a class body, so methods count twice and nested functions are never qualified |
| AstVisitor.QualifiedBeforeBare | src/duplifinder/ast_visitor.py:24-31 | for every method of a class, the qualified entry comes before the bare entry |
| AstVisitor.RecordsRequested | src/duplifinder/ast_visitor.py:21-22 | every entry is under a requested kind and has "" as its fourth component |
| AstVisitor.FixtureDefinitions | tests/conftest.py:19-24 | on the sample file with all kinds, class holds SingletonClass (1,3) and def holds SingletonClass.method (2,3), method (2,3), helper (5,6), in that order |
| AstVisitor.SameNamedSiblingsKept | src/duplifinder/ast_visitor.py:37 | two sibling functions with the same name give two entries; nothing is deduplicated |
| AstProcessor.MinIndent | src/duplifinder/ast_processor.py:49 | None exactly when every line is blank (where min raises ValueError); otherwise no larger than the indent of any non-blank line |
| AstProcessor.MinIndentReached | src/duplifinder/ast_processor.py:49 | some non-blank line has exactly the minimum indent |
| AstProcessor.DedentRemovesCommonIndent | src/duplifinder/ast_processor.py:49-50 | dedenting removes only leading whitespace from each non-blank line, and some non-blank line then starts with a non-space character |
| AstProcessor.SnippetLines | src/duplifinder/ast_processor.py:47-51 | split back at newlines, the snippet has one line per source line of the definition: its 1-based number, a space, the dedented line |
| AstProcessor.GroupedSucceeds | src/duplifinder/ast_processor.py:41-52 | grouping one kind's entries fails exactly when building the snippet of a kept entry raises |
| AstProcessor.GroupedContents | src/duplifinder/ast_processor.py:41-52 | under each name, one item per kept entry of that name, in visitor order; no name without an item |
| AstProcessor.ItemsNamedExcluded | src/duplifinder/ast_processor.py:42-43 | a name matched at its start by an exclude_names regex gets no items |
| AstProcessor.ItemsNamedKept | src/duplifinder/ast_processor.py:42-52 | any other name gets every one of its entries, located at "path:lineno" |
| AstProcessor.GroupedFailureSticks | src/duplifinder/ast_processor.py:40-62 | after one entry raises, later entries cannot make grouping succeed |
| AstProcessor.GroupEntries | src/duplifinder/ast_processor.py:41-52 | the inner loop returns the grouping of the kind's entries, or None once one raises |
| AstProcessor.GroupKinds | src/duplifinder/ast_processor.py:39-52 | from the visitor's map, builds a dictionary with exactly the requested kinds, each grouped; None if any kind fails |
| AstProcessor.ProcessFileAst | src/duplifinder/ast_processor.py:21-62 | process_file_ast returns the value of ProcessAst: exclude check, read, parse, visit, group |
| AstProcessor.ProcessAst | src/duplifinder/ast_processor.py:21-62 | an excluded file gives ({}, path, 0); a skipped result is always ({}, path, 0); a result that is not skipped has one entry per requested kind and len(lines) lines; ProcessAstOutcome gives exactly when it is skipped |
| AstProcessor.ProcessFileAstLegacy | build/lib/duplifinder/processors.py:19-54 | the older version returns the same definitions and skip marker, without the line count |
| AstProcessor.ProcessAstOutcome | src/duplifinder/ast_processor.py:24-62 | for exclude-name regexes that match without raising, the result is either ({}, path, 0), exactly when the file is excluded, unreadable, unparsable or a snippet raises; or no skip, a dictionary whose keys are exactly the requested kinds, and the splitlines count |
| AstProcessor.ProcessAstItems | src/duplifinder/ast_processor.py:39-53 | on success, kind k maps each name to the items of the visitor's k-entries with that name: none if excluded, otherwise one per entry in order |
| AstProcessor.NoPreviewNotSkipped | src/duplifinder/ast_processor.py:45-46 | without preview no snippet is built, so with exclude-name regexes that match without raising, a readable, parsable, non-excluded file is never skipped |
| AstProcessor.FixtureProcessed | tests/test_processors.py:14-20 | the sample file is not skipped, counts 6 lines, and holds SingletonClass under class |
| TextProcessor.SearchLine | src/duplifinder/text_processor.py:30-32 | one line's pass appends that line's hits (one per pattern found in it, in pattern order) |
| TextProcessor.ProcessFileText | src/duplifinder/text_processor.py:14-39 | process_file_text returns the value of ProcessText: ({}, path, 0) when excluded or unreadable, else the hits and len(lines) |
| TextProcessor.ProcessText | src/duplifinder/text_processor.py:14-39 | skipped exactly when the file is excluded or cannot be read, and then ({}, path, 0); otherwise len(lines) lines; TextMatchesExact gives the matches |
| TextProcessor.ProcessFileTextLegacy | build/lib/duplifinder/processors.py:57-76 | for the same decoded lines, the older version returns the same matches and skip marker |
| TextProcessor.MatchingLines | src/duplifinder/text_processor.py:29-32 | the lines containing a pattern, strictly ascending, each at most the line count; every line containing the pattern is included |
| TextProcessor.HitsSelect | src/duplifinder/text_processor.py:29-32 | under a pattern listed once, the hits are the locations of the lines containing it, in order; an unlisted pattern has none |
| TextProcessor.TextMatchKeys | src/duplifinder/text_processor.py:26-33 | on success every key is a listed pattern found in some line, and the line count is the number of lines read |
| TextProcessor.TextMatchesExact | src/duplifinder/text_processor.py:29-33 | a pattern listed once has exactly one location per matching line, ascending, no more than the line count |
| TextProcessor.NoHitsNoKeys | src/duplifinder/text_processor.py:28-32 | a file in which no pattern is found yields the empty map |
| TextProcessor.FixtureTextMatches | tests/test_processors.py:53-59 | searching the sample file for "class" gives one location, line 1 |
| TextProcessor.NoClassHereMatches | src/duplifinder/text_processor.py:29-32 | the line "No class here" gives one location for "class" |
| TokenProcessor.TokenizeBlock | src/duplifinder/token_processor.py:19-28 | collects the stripped text of every token that is not COMMENT, NL, INDENT, DEDENT or ENDMARKER, in order; a TokenError keeps what was collected |
| TokenProcessor.NormalizedPrefix | src/duplifinder/token_processor.py:22-27 | a tokenizer that stops early yields a prefix of the full result |
| TokenProcessor.NormalizedFrom | src/duplifinder/token_processor.py:24-25 | each kept token is the stripped text of a token of a kept type |
| TokenProcessor.NormalizedKept | src/duplifinder/token_processor.py:24-25 | every token of a kept type contributes its stripped text |
| TokenProcessor.SampleDropsComment | tests/test_processors.py:44-50 | "def foo(): pass  # comment" keeps "def" and "foo" and drops the comment (with SampleKeepsDef, SampleKeepsFoo) |
| TokenProcessor.WalkReachesAll | src/duplifinder/token_processor.py:48 | the breadth-first ast.walk reaches every node once, so every definition once |
| TokenProcessor.LabelParts | src/duplifinder/token_processor.py:55 | a block label reads back as its first and last line |
| TokenProcessor.BlocksOfExact | src/duplifinder/token_processor.py:48-55 | blocks exist exactly when every definition tokenizes; then there is one block per definition node, in order, with its label and normalised tokens |
| TokenProcessor.CollectBlocks | src/duplifinder/token_processor.py:48-55 | the block loop returns those blocks |
| TokenProcessor.PairsExact | src/duplifinder/token_processor.py:59-60 | the nested loops visit exactly the pairs a < b < n, in loop order, n(n-1)/2 of them |
| TokenProcessor.PairsDistinct | src/duplifinder/token_processor.py:59-60 | no pair is compared twice |
| TokenProcessor.ReportedExact | src/duplifinder/token_processor.py:61-65 | a tuple is recorded for a pair exactly when its ratio is at least the threshold, in loop order |
| TokenProcessor.Trunc | src/duplifinder/token_processor.py:64 | int() truncates toward zero |
| TokenProcessor.KeyExamples | src/duplifinder/token_processor.py:64 | the key for 0.8 is "token similarity >80%", for 0.5 "token similarity >50%" |
| TokenProcessor.Key | src/duplifinder/token_processor.py:64 | the key is "token similarity >" then the percentage then "%", in digits alone for a non-negative threshold |
| TokenProcessor.KeyInjective | src/duplifinder/token_processor.py:64 | two thresholds share a key exactly when int(threshold*100) is the same for both |
| TokenProcessor.Bucket | src/duplifinder/token_processor.py:58-65 | the only possible key is the threshold's, and it is present exactly when something was recorded |
| TokenProcessor.CompareRow | src/duplifinder/token_processor.py:60-65 | the inner loop adds the tuples of row i to the bucket |
| TokenProcessor.CompareBlocks | src/duplifinder/token_processor.py:58-65 | the nested loops give the bucket of every reported pair |
| TokenProcessor.ProcessFileTokens | src/duplifinder/token_processor.py:31-73 | process_file_tokens returns the value of ProcessTokens |
| TokenProcessor.ProcessTokens | src/duplifinder/token_processor.py:31-73 | an excluded file is skipped; a skipped result is ({}, path, 0); otherwise len(lines) lines and no key other than the threshold's; TokenOutcome gives exactly when it is skipped |
| TokenProcessor.TokenOutcome | src/duplifinder/token_processor.py:34-73 | ({}, path, 0) exactly when the file is excluded, unreadable, unparsable, or a block's tokenizer raises something other than TokenError; otherwise the splitlines count and at most the threshold's key |
| TokenProcessor.TokenSimilaritiesExact | src/duplifinder/token_processor.py:58-67 | on success the list holds exactly the tuples of pairs a < b at or above the threshold, at most n(n-1)/2; the key exists iff such a pair does |
| TokenProcessor.TwoSimilarBlocks | tests/test_processors.py:71-78 | two blocks whose ratio reaches 0.5 are reported under "token similarity >50%" |
| Finder.DiscoverExact | build/lib/duplifinder/finder.py:20-25 | a path is discovered iff it is a candidate none of whose parts is an ignored directory |
| Finder.Discover | build/lib/duplifinder/finder.py:20-25 | every discovered path is a candidate none of whose parts is ignored, and there are no more of them than candidates; DiscoverExact adds the converse |
| Finder.DiscoverConcat | build/lib/duplifinder/finder.py:22-25 | discovery keeps the candidates' order |
| Finder.DiscoverIgnoresGit | tests/test_finder.py:13-27 | with ".git" ignored, "a.py" is found and ".git/c.py" is not |
| Finder.MergeNames | build/lib/duplifinder/finder.py:63-64 | extending by a per-file map: each name's list becomes the old list followed by the file's list |
| Finder.MergeNamesInto | build/lib/duplifinder/finder.py:63-64 | the extend loop computes MergeNames, whatever the order of names |
| Finder.MergeDefs | build/lib/duplifinder/finder.py:62-64 | merging keeps the kinds and merges each kind's names |
| Finder.MergeDefsInto | build/lib/duplifinder/finder.py:62-64 | the loops over kinds compute MergeDefs |
| Finder.MergeNothing | build/lib/duplifinder/finder.py:62-64 | merging a skipped file's {} (or kinds with no names) changes nothing |
| Finder.MergeNamesNothing | build/lib/duplifinder/finder.py:89-90 | merging {} in text mode changes nothing |
| Finder.InitialDefs | build/lib/duplifinder/finder.py:44 | the global map starts with exactly the requested kinds, each empty |
| Finder.FindDefinitions | build/lib/duplifinder/finder.py:42-66 | find_definitions' loop returns FindDefs: the merged map, the skip markers and the scanned count |
| Finder.FindDefsCounts | build/lib/duplifinder/finder.py:57-61 | each file is either skipped or scanned, never both; the skipped list holds the markers in order |
| Finder.FindDefsItems | build/lib/duplifinder/finder.py:62-64 | each (kind, name) list is the concatenation of the per-file lists, in order |
| Finder.FindDefsNames | build/lib/duplifinder/finder.py:62-64 | a name is present under a kind iff some file had it there |
| Finder.ProcessedFit | build/lib/duplifinder/processors.py:34 | process_file_ast's results only use requested kinds, so the merge never raises KeyError |
| Finder.FindTextMatches | build/lib/duplifinder/finder.py:69-92 | find_text_matches' loop returns FindText |
| Finder.FindTextTotals | build/lib/duplifinder/finder.py:84-90 | skipped plus scanned is the number of files; each pattern's list is the concatenation of the per-file lists |
| Duplicates.PatternKeyInjective | build/lib/duplifinder/main.py:23 | different patterns give different keys |
| Duplicates.TextDuplicatesKeys | build/lib/duplifinder/main.py:23 | a pattern's key is present iff it has at least min_occurrences locations, and no other key exists |
| Duplicates.TextDuplicates | build/lib/duplifinder/main.py:23 | every pattern with at least min_occurrences locations is present under its key; TextDuplicatesKeys and TextDuplicatesSorted give the rest |
| Duplicates.TextDuplicatesSorted | build/lib/duplifinder/main.py:23 | a surviving pattern's list holds the same locations, each as often, in string order |
| Duplicates.KindPatternsExact | build/lib/duplifinder/main.py:31 | the regexes for kind t are those without a space (as written) and those starting "t " (with the rest) |
| Duplicates.KindPatterns | build/lib/duplifinder/main.py:31 | never more regexes than given; KindPatternsExact says which apply |
| Duplicates.KindPatternsUnscoped | build/lib/duplifinder/main.py:31 | when no regex holds a space, all of them apply to every kind, in order |
| Duplicates.Included | build/lib/duplifinder/main.py:32 | a name among the filter names is always kept, and with no name filter and no regex every name is kept |
| Duplicates.ScopedExamples | build/lib/duplifinder/main.py:31 | "class Foo.*" applies to classes only, as "Foo.*"; "Foo" applies to every kind |
| Duplicates.DefKeyInjective | build/lib/duplifinder/main.py:35 | different (kind, name) pairs get different "kind name" keys |
| Duplicates.FilterNames | build/lib/duplifinder/main.py:28-36 | for kind t, adds exactly the surviving names with sorted items, and leaves other kinds' keys alone |
| Duplicates.DefDuplicates | build/lib/duplifinder/main.py:27-36 | a "kind name" key is present iff the group survives the count, name and regex filters; its items are sorted by location; there are no other keys |
| Duplicates.SortItemsCorrect | build/lib/duplifinder/main.py:36 | a group keeps exactly its items, ordered by location |
| Duplicates.UnfilteredKeepsRepeated | build/lib/duplifinder/main.py:29-32 | with no filters and a minimum of 2, exactly the names defined at least twice survive |
| Duplicates.ComputeDuplicates | build/lib/duplifinder/main.py:13-38 | text mode gives the filtered pattern map; definition mode the filtered definitions; skipped and scanned pass through from the finder |
| Duplicates.LegacyExit | build/lib/duplifinder/main.py:57-58 | exit 1 iff fail_on_duplicates and the duplicates are non-empty, else 0 |
| Application.SkipGateIsRate | src/duplifinder/application.py:110-111 | the integer gate 10·skipped > scanned + skipped holds iff the skip rate is strictly above 0.1 |
| Application.DupRateAbove | src/duplifinder/application.py:60 | the dup rate exceeds a threshold iff dup > threshold·total for positive totals, or the threshold is negative when there are no lines |
| Application.RunCodes | src/duplifinder/application.py:34-125 | the selected workflow returns 0, 1 or 3; 3 only from the definition workflow's skip gate; 1 iff the fail flag is set and the mode saw duplication |
| Application.SearchRun | src/duplifinder/application.py:34-51 | 0 or 1, and 1 exactly when the fail flag is set and some searched definition occurs more than once |
| Application.TokenRun | src/duplifinder/application.py:57-76 | 0 or 1, and 1 exactly when the fail flag is set and either some lines are duplicated or the duplicate rate exceeds the threshold |
| Application.PatternRun | src/duplifinder/application.py:82-97 | 0 or 1, and 1 exactly when the fail flag is set and some lines are duplicated |
| Application.DefaultRun | src/duplifinder/application.py:103-125 | 0, 1 or 3; 3 exactly when the skip rate exceeds 10%; otherwise 1 exactly when the fail flag is set and some lines are duplicated |
| Application.Create | src/duplifinder/application.py:141-149 | search mode wins over token mode, token mode over patterns; the default workflow is chosen exactly when none of the three is set |
| Application.TokenEarlyReturnRedundant | src/duplifinder/application.py:63-66 | with a non-negative threshold the early return gives the same code as the final one |
| Application.TokenNegativeThreshold | src/duplifinder/application.py:60-66 | with a negative threshold and no lines, a failing run returns 1 |
| Application.DefaultSkipExample | tests/test_main.py:30-39 | one scanned file and two skipped return 3 |
| Application.FlattenKind | src/duplifinder/application.py:131-133 | the inner loop adds "t name" ↦ items for every name of kind t, and leaves other kinds' keys alone |
| Application.FlattenDefinitions | src/duplifinder/application.py:127-134 | every (kind, name) gets the key "kind name" with its identical item list, and there are no other keys |
| Application.FlatOfUnique | src/duplifinder/application.py:127-134 | the flattening is determined by its input: no entry overwrites another, and loop order does not matter |
| Application.FlatKeysRenderAsKind | src/duplifinder/duplicate_renderer.py:27 | every flattened key renders with its kind as the entry type |
| EntryPoint.MainAgreesWithWorkflows | src/duplifinder/main.py:24-58 | once the configuration is built, main exits with the code of the workflow WorkflowFactory.create selects |
| EntryPoint.MainCodes | src/duplifinder/main.py:19-58 | codes are 0–3: 2 iff configuration failed; 3 iff definition mode passes the skip gate; 1 only with the fail flag |
| EntryPoint.Main | src/duplifinder/main.py:14-58 | the exit status is 0, 1, 2 or 3, and 2 exactly when the configuration could not be built; MainAgreesWithWorkflows ties the rest to the workflows |
| EntryPoint.SearchExit | src/duplifinder/main.py:30-32 | search mode exits 1 iff fail_on_duplicates and some spec occurs more than once, else 0 |
| EntryPoint.TokenAlert | src/duplifinder/main.py:36-38 | a dup rate above the threshold exits at once, 1 with the fail flag and 0 without |
| EntryPoint.MainExamples | tests/test_main.py:21-39 | one scanned and two skipped exit 3; a configuration error exits 2 |
| DuplicateRenderer.EntryType | src/duplifinder/duplicate_renderer.py:27 | "text" for a key without a space; for a key with one, the first whitespace-delimited word, key.split()[0], with an error exactly when the key is blank |
| DuplicateRenderer.NormalizeItem | src/duplifinder/duplicate_renderer.py:22-28 | unpacking raises exactly when the item's shape does not fit the mode, or the type lookup raises |
| DuplicateRenderer.NormalizeItemsExact | src/duplifinder/duplicate_renderer.py:20-28 | a key's items normalise iff each does, and then entry i is item i normalised: order and count are kept |
| DuplicateRenderer.NormalizeForRender | src/duplifinder/duplicate_renderer.py:16-31 | _normalize_for_render returns the value of Normalize: every key with a non-empty list, items normalised; None where it raises |
| DuplicateRenderer.Normalize | src/duplifinder/duplicate_renderer.py:16-31 | on success the keys are exactly those with a non-empty item list, each keeping its number of items |
| DuplicateRenderer.NormalizeKey | src/duplifinder/duplicate_renderer.py:20-28 | the inner loop returns NormalizeItems |
| DuplicateRenderer.ShownExact | src/duplifinder/duplicate_renderer.py:16-47 | a key is shown iff it has at least min_occurrences items (and at least one); token entries are "loc1 ~ loc2 (sim: p)" with "" and "token"; others keep loc, snippet and the key's type |
| DuplicateRenderer.Shown | src/duplifinder/duplicate_renderer.py:47 | keeps exactly the keys with at least min_occurrences entries, each with its list unchanged |
| DuplicateRenderer.DefinitionEntryType | src/duplifinder/duplicate_renderer.py:27 | a "kind name" key has type kind |
| DuplicateRenderer.RenderOutcome | src/duplifinder/duplicate_renderer.py:46-76 | when normalisation succeeds: SystemExit(1) iff not JSON, the fail flag is set and some key survives; JSON reports the number of survivors |
| DuplicateRenderer.RenderDuplicates | src/duplifinder/duplicate_renderer.py:34-76 | raises exactly when normalisation raises; SystemExit only with code 1, the fail flag set and output not JSON; with JSON output it prints the JSON unless it raised |
| DuplicateRenderer.RenderRaises | src/duplifinder/duplicate_renderer.py:19-28 | rendering raises iff some item has the wrong shape, or some non-token key that contains a space is entirely blank |
| Cli.ParseList | build/lib/duplifinder/cli.py:61-68 | every parsed name is non-empty, has no comma and is already stripped |
| Cli.ParseListJoin | build/lib/duplifinder/cli.py:61-68 | parsing clean names joined with commas gives back their set |
| Cli.SplitFindItems | build/lib/duplifinder/cli.py:84-91 | items that are kinds go to types, and all other items to names; with no kind given, types becomes all three |
| Cli.FindItemsPartition | build/lib/duplifinder/cli.py:84-91 | every item is a kind or a name, never both; the types are non-empty and known |
| Cli.BuildConfig | build/lib/duplifinder/cli.py:46-93 | None exactly when there is no root candidate (the index raises); otherwise the base settings with the split find items |
| Cli.BuildConfigPrecedence | build/lib/duplifinder/cli.py:60-80 | the ignored directories always include DEFAULT_IGNORES; a truthy CLI value wins, otherwise the file's value or the default, e.g. for min, ignore, pattern regexes and fail |
| Cli.ValidateConfig | build/lib/duplifinder/cli.py:96-108 | first an error for any unsupported kind; then an error naming the first pattern that does not compile; otherwise none |
| Cli.BuiltTypesValid | build/lib/duplifinder/cli.py:84-100 | a configuration build_config produced never fails the kind check |
| Strings.NatStrRoundTrip | src/duplifinder/ast_processor.py:44 | the decimal rendering of a line number reads back as that number |
| Strings.SplitJoin | build/lib/duplifinder/cli.py:61 | splitting at a character and joining with it gives back the string |
| Strings.JoinSplit | build/lib/duplifinder/cli.py:61 | joining parts free of the separator and splitting gives back the parts |
| Strings.FirstWord | src/duplifinder/duplicate_renderer.py:27 | key.split()[0]: None (IndexError) exactly for a blank key; otherwise the whole run of non-blank characters right after the leading whitespace, ending at the next blank or at the end |
| Strings.FirstWordOf | src/duplifinder/duplicate_renderer.py:27 | for blanks, then a non-empty word, then a blank or nothing, split()[0] is that word |
| Strings.Strip | src/duplifinder/token_processor.py:25 | strip removes exactly the leading and trailing whitespace, and gives "" iff the string is blank |
| Paths.LocationParts | src/duplifinder/ast_processor.py:44 | a location is the path, ":" and the line number, which reads back |
| Paths.LocationInjective | src/duplifinder/text_processor.py:32 | different lines of one file get different locations |
| MultiMap.AppendAllGet | src/duplifinder/ast_visitor.py:16 | a defaultdict(list) fold gives each key its old list followed by the appended values, in order |
| MultiMap.AppendAllKeys | src/duplifinder/ast_visitor.py:16 | a key exists only after something was appended under it |
| Sorting.SortCorrect | build/lib/duplifinder/main.py:23 | sorted() returns the same elements, each as often, in string order |

## Left out

- Rendering output is not modelled: console tables, JSON printing, the search renderer, logging, audit events and the performance tracker. For `render_duplicates` only the way it ends is modelled (`DuplicateRenderer.RenderDuplicates`).
- The current build's `main` and `application.py` import `render_search` and `render_search_json` from `output.py` (src/duplifinder/main.py:10, src/duplifinder/application.py:14). That module does not define them.
  - `output.render_duplicates` takes three parameters (src/duplifinder/output.py:19). The calls pass seven or more (main.py:39, 46, 57; application.py:68, 89, 117).
  - `EntryPoint.Main` and `Application.Run` therefore give the exit codes as if rendering returned normally.
- Concurrency is not modelled: `run_parallel`'s thread and process pools, `as_completed` order, tqdm, and `max_workers`. The folds take the per-file results in the order they arrive.
- File-system I/O is not modelled: `rglob`, opening and decoding files, and `Path.resolve`. Contents, path parts and the `is_dir` answer are inputs.
- `TextProcessor.ProcessFileTextLegacy` and `TextProcessor.ProcessFileText` take the already decoded lines. The older version opens files in the locale's encoding in strict mode (build/lib/duplifinder/processors.py:57-76), and the current one uses UTF-8 with `errors="replace"` (src/duplifinder/text_processor.py:25). So a file with undecodable bytes is skipped by the older version and searched by the current one. The model does not capture this difference.
- Python's parser and tokenizer are not modelled. The tree and the token stream are inputs.
- Regular expressions, `fnmatch`, `re.compile` and difflib's ratio are parameters with no stated behaviour. In particular, no property depends on how SequenceMatcher computes its ratio.
- `AstProcessor.ProcessAst`, `AstProcessor.ProcessAstOutcome` and `AstProcessor.NoPreviewNotSkipped` treat `matchAt` as total. In the source, an invalid `exclude_names` pattern makes `re.match` raise `re.error` (src/duplifinder/ast_processor.py:42). The generic handler then skips the file (lines 60-62; build/lib/duplifinder/processors.py:37 and 52-54 in the older version). This extra skip path is not modelled, so the skip conditions above hold only for patterns that match without raising.
- `Duplicates.Included` treats `matchAt` as total. In the source, an invalid `filter_regexes` entry makes `re.match` raise at build/lib/duplifinder/main.py:32, and nothing catches it, so `compute_duplicates` crashes. `validate_config` compiles only `pattern_regexes` (build/lib/duplifinder/cli.py:102-108), so neither kind of invalid regex is rejected beforehand. This crash is not modelled.
- `DuplicateRenderer.TokenLoc` does not model the float formatting: `{:.2%}` is the parameter `percent`. The `{:.1%}` messages are not modelled.
- Rates are exact rationals (`real`), not binary floating point. `Application.SkipGate` states `skip_rate > 0.1` as `10*skipped > scanned+skipped`. `Application.SkipGateIsRate` shows this equals the rational comparison. The rounding of binary 0.1 is not modelled.
- `TokenProcessor.Key` does not model the binary rounding of `threshold*100`: it is computed over exact reals.
- The duplicated-line estimator `estimate_dup_lines` lives in a module that is not part of this model. `dup_lines` and `total_lines` are inputs to the exit-code functions.
- The current build's `finder.py` and `cli.py` are not part of this model. `find_search_matches`, `find_token_duplicates`, the five-result `find_*` functions and the current `build_config` are inputs or left out. The older finder and CLI are modelled instead.
- `Cli.FileSettings` assumes each YAML value has the type the CLI uses; a value of another type is not modelled.
- The `verbose`, `parallel`, `use_multiprocessing` and `max_workers` settings only affect logging and concurrency, so they are not carried in `Cli.Settings`.
- `AstProcessor.GroupKinds` takes the kinds in the fixed order class, def, async_def rather than dictionary insertion order. The result does not depend on the order: kinds are grouped independently, and any failure skips the whole file.
- `Sorting.SortCorrect` states order and permutation but not stability (the order of items with equal locations).
- `TokenProcessor.TokenizeBlock`: an exception from the tokenizer other than `TokenError` escapes it. This is modelled as None, which `process_file_tokens` turns into a skip.
- `create_parser`, `load_config_file` and `parser.error`'s message text are not modelled; `Cli.ValidateConfig` returns the error instead of exiting.
- `AstProcessor.AstConfig`: the requested kinds are a set of the three known kinds, so an unknown type name cannot reach the processors by construction. The check that rejects unknown names is modelled in `Cli.ValidateConfig`, and `Cli.BuiltTypesValid` proves that a validated configuration holds only known kinds.
- `watcher.py` and `__init__.py` are not modelled (event handling and re-exports).
