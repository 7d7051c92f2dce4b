/** Configuration building and validation of the command line
    (build/lib/duplifinder/cli.py): comma lists, the precedence of command
    line over configuration file over default, the split of `--find` items
    into kinds and names, and the checks of `validate_config`. Argument
    parsing itself, logging set-up and path resolution are not modelled;
    whether a path is a directory is a parameter. */
module Cli {
  import opened Common
  import opened Strings

  /** DEFAULT_IGNORES (src/duplifinder/config.py:13-15). */
  const DefaultIgnores: set<string> := {".git", "__pycache__", ".venv", "venv", "build", "dist", "node_modules"}

  /** The kind names `build_config` and `validate_config` accept. */
  const KnownTypes: set<string> := {"class", "def", "async_def"}

  // ---------------------------------------------------------------------
  // Comma lists.

  /** `{x.strip() for x in s.split(",") if x.strip()}` (lines 61, 64, 67):
      non-empty pieces, free of commas and of surrounding blanks. */
  function ParseList(s: string): (r: set<string>)
    ensures forall x :: x in r ==> x != "" && ',' !in x && Strip(x) == x
  {
    var pieces := Split(s, ',');
    assert forall p :: p in pieces ==> ',' !in Strip(p) && Strip(Strip(p)) == Strip(p) by {
      forall p | p in pieces ensures ',' !in Strip(p) && Strip(Strip(p)) == Strip(p) {
        StripPiece(p);
      }
    }
    set p | p in pieces && Strip(p) != "" :: Strip(p)
  }

  /** Stripping adds no character and is done after one pass. */
  lemma StripPiece(p: string)
    ensures forall c :: c in Strip(p) ==> c in p
    ensures Strip(Strip(p)) == Strip(p)
  {
    StripIdempotent(p);
    var x := Strip(p);
    assert forall i :: 0 <= i < |x| ==> x[i] == p[LeadingSpace(p) + i];
  }

  /** Stripping twice is stripping once. */
  lemma StripIdempotent(s: string)
    ensures Strip(Strip(s)) == Strip(s)
  {
    var r := Strip(s);
    if r != [] {
      assert LeadingSpace(r) == 0 by { assert !IsSpace(r[0]); }
      assert LStrip(r) == r;
      assert TrailingSpace(r) == 0 by { assert !IsSpace(r[|r| - 1]); }
    }
  }

  /** Joining clean names with commas and parsing the result gives back
      the set of names. */
  lemma ParseListJoin(names: seq<string>)
    requires forall i :: 0 <= i < |names| ==> names[i] != "" && ',' !in names[i] && Strip(names[i]) == names[i]
    ensures ParseList(Join(names, ",")) == set x | x in names
  {
    if names == [] {
      ParseListEmpty();
    } else {
      JoinSplit(names, ',');
      ParseListPieces(Join(names, ","), names);
    }
  }

  /** An empty string parses to no names. */
  lemma ParseListEmpty()
    ensures ParseList("") == {}
  {
    assert Split("", ',') == [""];
    assert Strip("") == "";
  }

  /** When every piece is clean, the parsed set is the set of pieces. */
  lemma ParseListPieces(s: string, pieces: seq<string>)
    requires Split(s, ',') == pieces
    requires forall i :: 0 <= i < |pieces| ==> pieces[i] != "" && Strip(pieces[i]) == pieces[i]
    ensures ParseList(s) == set x | x in pieces
  {
    forall x ensures x in ParseList(s) <==> x in pieces {
      if x in pieces {
        assert Strip(x) == x;
      }
    }
  }

  // ---------------------------------------------------------------------
  // Precedence (lines 48-81): the command-line value when it is truthy,
  // else the configuration file's value when present, else the default.

  /** A string setting: "" is falsy. */
  function TextSetting(cli: string, file: Option<string>): string {
    if cli != "" then cli else file.GetOr("")
  }

  /** A list setting: an absent or empty list is falsy. */
  function ListSetting(cli: seq<string>, file: Option<seq<string>>, default: seq<string>): seq<string> {
    if cli != [] then cli else file.GetOr(default)
  }

  /** A flag. */
  function FlagSetting(cli: bool, file: Option<bool>): bool {
    cli || file.GetOr(false)
  }

  /** `args.min or config_dict.get("min", 2)`: 0 is falsy. `cli` is the
      parsed value, and the parser supplies 2 when `--min` is absent, so
      the file's `min` is read only after an explicit `--min 0`. */
  function MinSetting(cli: int, file: Option<int>): int {
    if cli != 0 then cli else file.GetOr(2)
  }

  /** The parsed command line, with an absent list as the empty list. */
  datatype Args = Args(
    root: seq<string>,
    ignore: string,
    excludePatterns: string,
    excludeNames: string,
    find: seq<string>,
    findRegex: seq<string>,
    patternRegex: seq<string>,
    json: bool,
    fail: bool,
    min: int,
    preview: bool)

  /** The configuration file's entries, each possibly absent. */
  datatype FileSettings = FileSettings(
    root: Option<seq<string>>,
    ignore: Option<string>,
    excludePatterns: Option<string>,
    excludeNames: Option<string>,
    find: Option<seq<string>>,
    findRegex: Option<seq<string>>,
    patternRegex: Option<seq<string>>,
    json: Option<bool>,
    fail: Option<bool>,
    min: Option<int>,
    preview: Option<bool>)

  /** The settings `build_config` fills in. */
  datatype Settings = Settings(
    root: string,
    ignoreDirs: set<string>,
    excludePatterns: set<string>,
    excludeNames: set<string>,
    typesToSearch: set<string>,
    filterNames: set<string>,
    filterRegexes: seq<string>,
    patternRegexes: seq<string>,
    jsonOutput: bool,
    failOnDuplicates: bool,
    minOccurrences: int,
    preview: bool)

  // ---------------------------------------------------------------------
  // The --find items (lines 84-91).

  /** The kinds among the items. */
  function KindsAmong(items: seq<string>): set<string> {
    set x | x in items && x in KnownTypes
  }

  /** The names among the items. */
  function NamesAmong(items: seq<string>): set<string> {
    set x | x in items && x !in KnownTypes
  }

  /** The loop of lines 85-89 and the default of lines 90-91. */
  method SplitFindItems(items: seq<string>) returns (types: set<string>, names: set<string>)
    ensures types == (if KindsAmong(items) == {} then KnownTypes else KindsAmong(items))
    ensures names == NamesAmong(items)
  {
    types, names := {}, {};
    for i := 0 to |items|
      invariant types == KindsAmong(items[..i])
      invariant names == NamesAmong(items[..i])
    {
      assert items[..i + 1] == items[..i] + [items[i]];
      if items[i] in KnownTypes {
        types := types + {items[i]};
      } else {
        names := names + {items[i]};
      }
    }
    assert items[..|items|] == items;
    if types == {} {
      types := KnownTypes;
    }
  }

  /** Every item is a requested kind or a filter name, never both; the
      kinds are never empty and never unknown. */
  lemma FindItemsPartition(items: seq<string>)
    ensures var types := if KindsAmong(items) == {} then KnownTypes else KindsAmong(items);
      && types != {} && types <= KnownTypes
      && NamesAmong(items) !! KnownTypes
      && (forall x :: x in items ==> x in types || x in NamesAmong(items))
      && (KindsAmong(items) == {} <==> forall i :: 0 <= i < |items| ==> items[i] !in KnownTypes)
  {
    if KindsAmong(items) != {} {
      var x :| x in KindsAmong(items);
      var i :| 0 <= i < |items| && items[i] == x;
    } else {
      forall i | 0 <= i < |items| ensures items[i] !in KnownTypes {
        assert items[i] !in KindsAmong(items);
      }
    }
  }

  // ---------------------------------------------------------------------
  // build_config (lines 46-93).

  /** `args.root or config_dict.get("root", ["."])`. */
  function RootCandidates(args: Args, file: FileSettings): seq<string> {
    ListSetting(args.root, file.root, ["."])
  }

  /** The settings of lines 58-81 once the root is known, before the
      --find items are split. */
  function BaseSettings(args: Args, file: FileSettings, rootStr: string): Settings {
    Settings(
      rootStr,
      DefaultIgnores + ParseList(TextSetting(args.ignore, file.ignore)),
      ParseList(TextSetting(args.excludePatterns, file.excludePatterns)),
      ParseList(TextSetting(args.excludeNames, file.excludeNames)),
      {}, {},
      ListSetting(args.findRegex, file.findRegex, []),
      ListSetting(args.patternRegex, file.patternRegex, []),
      FlagSetting(args.json, file.json),
      FlagSetting(args.fail, file.fail),
      MinSetting(args.min, file.min),
      FlagSetting(args.preview, file.preview))
  }

  /** The items split by kind: `--find` (or the file's list) followed by
      the root candidates after the first. */
  function FindItems(args: Args, file: FileSettings): seq<string>
    requires RootCandidates(args, file) != []
  {
    var candidates := RootCandidates(args, file);
    ListSetting(args.find, file.find, []) + candidates[1..]
  }

  /** `build_config`; None where the root list is empty and line 49's
      index raises IndexError. */
  method BuildConfig(args: Args, file: FileSettings, isDir: string -> bool) returns (r: Option<Settings>)
    ensures r.None? <==> RootCandidates(args, file) == []
    ensures r.Some? ==>
      var candidates := RootCandidates(args, file);
      var base := BaseSettings(args, file, if isDir(candidates[0]) then candidates[0] else ".");
      var items := FindItems(args, file);
      r.value == base.(typesToSearch := if KindsAmong(items) == {} then KnownTypes else KindsAmong(items),
                       filterNames := NamesAmong(items))
  {
    var candidates := RootCandidates(args, file);
    if candidates == [] {
      return None;
    }
    var rootStr := if isDir(candidates[0]) then candidates[0] else ".";
    var extra := if |candidates| > 1 then candidates[1..] else [];
    var config := BaseSettings(args, file, rootStr);
    var types, names := SplitFindItems(ListSetting(args.find, file.find, []) + extra);
    r := Some(config.(typesToSearch := types, filterNames := names));
  }

  /** The ignored directories always include the defaults, and a truthy
      command-line value wins over the configuration file. */
  lemma BuildConfigPrecedence(args: Args, file: FileSettings, rootStr: string)
    ensures var s := BaseSettings(args, file, rootStr);
      && DefaultIgnores <= s.ignoreDirs
      && (args.ignore != "" ==> s.ignoreDirs == DefaultIgnores + ParseList(args.ignore))
      && (args.ignore == "" && file.ignore == None ==> s.ignoreDirs == DefaultIgnores)
      && (args.min != 0 ==> s.minOccurrences == args.min)
      && (args.min == 0 ==> s.minOccurrences == file.min.GetOr(2))
      && (args.patternRegex != [] ==> s.patternRegexes == args.patternRegex)
      && (args.fail ==> s.failOnDuplicates)
      && (!args.fail ==> s.failOnDuplicates == file.fail.GetOr(false))
  {
    ParseListEmpty();
  }

  // ---------------------------------------------------------------------
  // validate_config (lines 96-108).

  datatype ConfigError = UnsupportedTypes(unknown: set<string>) | InvalidRegex(pattern: string)

  /** Lines 98-100, then the loop of lines 102-108 stopping at the first
      pattern that does not compile. */
  method ValidateConfig(types: set<string>, patternRegexes: seq<string>, compiles: string -> bool)
    returns (err: Option<ConfigError>)
    ensures types - KnownTypes != {} ==> err == Some(UnsupportedTypes(types - KnownTypes))
    ensures types - KnownTypes == {} ==>
      match err
      case None => forall i :: 0 <= i < |patternRegexes| ==> compiles(patternRegexes[i])
      case Some(e) =>
        exists i :: 0 <= i < |patternRegexes| && e == InvalidRegex(patternRegexes[i]) && !compiles(patternRegexes[i])
                    && forall j :: 0 <= j < i ==> compiles(patternRegexes[j])
  {
    var unknown := types - KnownTypes;
    if unknown != {} {
      return Some(UnsupportedTypes(unknown));
    }
    for i := 0 to |patternRegexes|
      invariant forall j :: 0 <= j < i ==> compiles(patternRegexes[j])
    {
      if !compiles(patternRegexes[i]) {
        return Some(InvalidRegex(patternRegexes[i]));
      }
    }
    return None;
  }

  /** A configuration that `build_config` produced never fails the kind
      check. */
  lemma BuiltTypesValid(args: Args, file: FileSettings)
    requires RootCandidates(args, file) != []
    ensures var items := FindItems(args, file);
      (if KindsAmong(items) == {} then KnownTypes else KindsAmong(items)) - KnownTypes == {}
  {
    FindItemsPartition(FindItems(args, file));
  }
}
