/** The duplicate renderer (src/duplifinder/duplicate_renderer.py): the
    normalisation of definition, text and token results into one entry
    shape, the `min_occurrences` filter and the decision to fail. Console
    and JSON printing are not modelled; the `.2%` rendering of a similarity
    ratio is a parameter. */
module DuplicateRenderer {
  import opened Common
  import opened Strings

  /** An item as a finder produces it: a (location, snippet) pair, or a
      token-mode (location, location, ratio) triple. */
  datatype RawItem = Pair(loc: string, snippet: string) | Triple(loc1: string, loc2: string, ratio: real)

  /** One normalised entry: {"loc": …, "snippet": …, "type": …}. */
  datatype Entry = Entry(loc: string, snippet: string, typ: string)

  /** `key.split()[0] if " " in key else "text"`; None where `split()` is
      empty and the index raises IndexError (a key made only of blanks). */
  function EntryType(key: string): (r: Option<string>)
    ensures ' ' !in key ==> r == Some("text")
    ensures ' ' in key ==> r == FirstWord(key) && (r.None? <==> IsBlank(key))
  {
    if ' ' in key then FirstWord(key) else Some("text")
  }

  /** f"{loc1} ~ {loc2} (sim: {ratio:.2%})" with the percentage given. */
  function TokenLoc(loc1: string, loc2: string, percent: string): string {
    loc1 + " ~ " + loc2 + " (sim: " + percent + ")"
  }

  /** The body of the inner loop (lines 22-28); None where unpacking raises
      ValueError (a pair in token mode, a triple otherwise) or the type
      lookup raises IndexError. */
  function NormalizeItem(key: string, item: RawItem, isToken: bool, percent: real -> string): (r: Option<Entry>)
    ensures r.None? <==> (isToken != item.Triple? || (!isToken && EntryType(key).None?))
  {
    if isToken then
      if item.Triple? then Some(Entry(TokenLoc(item.loc1, item.loc2, percent(item.ratio)), "", "token")) else None
    else
      match item
      case Triple(_, _, _) => None
      case Pair(loc, snippet) =>
        match EntryType(key)
        case None => None
        case Some(typ) => Some(Entry(loc, snippet, typ))
  }

  /** `norm_items` after the inner loop, or None once an item raises. */
  function NormalizeItems(key: string, items: seq<RawItem>, isToken: bool, percent: real -> string): (r: Option<seq<Entry>>)
    ensures r.Some? ==> |r.value| == |items|
  {
    if items == [] then Some([])
    else
      match NormalizeItems(key, items[..|items| - 1], isToken, percent)
      case None => None
      case Some(es) =>
        match NormalizeItem(key, items[|items| - 1], isToken, percent)
        case None => None
        case Some(e) => Some(es + [e])
  }

  /** The items of a key normalise iff each does, and then entry i is
      item i normalised: order and count are kept. */
  lemma {:induction false} NormalizeItemsExact(key: string, items: seq<RawItem>, isToken: bool, percent: real -> string)
    ensures NormalizeItems(key, items, isToken, percent).Some?
            <==> forall i :: 0 <= i < |items| ==> NormalizeItem(key, items[i], isToken, percent).Some?
    ensures NormalizeItems(key, items, isToken, percent).Some? ==>
              forall i :: 0 <= i < |items| ==>
                NormalizeItems(key, items, isToken, percent).value[i] == NormalizeItem(key, items[i], isToken, percent).value
  {
    if items != [] {
      var init := items[..|items| - 1];
      NormalizeItemsExact(key, init, isToken, percent);
      assert forall i :: 0 <= i < |init| ==> init[i] == items[i];
    }
  }

  /** Whether every key's items normalise without raising. */
  predicate Normalizable(dups: map<string, seq<RawItem>>, isToken: bool, percent: real -> string) {
    forall k :: k in dups ==> NormalizeItems(k, dups[k], isToken, percent).Some?
  }

  /** The value of `_normalize_for_render` (lines 16-31): every key with a
      non-empty item list, its items normalised; None where it raises. */
  function Normalize(dups: map<string, seq<RawItem>>, isToken: bool, percent: real -> string): (r: Option<map<string, seq<Entry>>>)
    ensures r.Some? ==> forall k :: k in r.value <==> k in dups && dups[k] != []
    ensures r.Some? ==> forall k :: k in r.value ==> |r.value[k]| == |dups[k]|
  {
    if Normalizable(dups, isToken, percent) then
      Some(map k | k in dups && dups[k] != [] :: NormalizeItems(k, dups[k], isToken, percent).value)
    else None
  }

  /** `_normalize_for_render`: `normalized` is filled key by key, each
      key's `norm_items` by NormalizeKey. */
  method NormalizeForRender(dups: map<string, seq<RawItem>>, isToken: bool, percent: real -> string)
    returns (r: Option<map<string, seq<Entry>>>)
    ensures r == Normalize(dups, isToken, percent)
  {
    var normalized: map<string, seq<Entry>> := map[];
    var todo := dups.Keys;
    while todo != {}
      invariant todo <= dups.Keys
      invariant forall k :: k in dups && k !in todo ==> NormalizeItems(k, dups[k], isToken, percent).Some?
      invariant normalized == map k | k in dups && k !in todo && dups[k] != [] :: NormalizeItems(k, dups[k], isToken, percent).value
      decreases todo
    {
      var key :| key in todo;
      var items := dups[key];
      var normItems := NormalizeKey(key, items, isToken, percent);
      if normItems.None? {
        assert !Normalizable(dups, isToken, percent);
        return None;
      }
      todo := todo - {key};
      if normItems.value != [] {
        normalized := normalized[key := normItems.value];
      }
    }
    assert Normalizable(dups, isToken, percent);
    assert normalized == map k | k in dups && dups[k] != [] :: NormalizeItems(k, dups[k], isToken, percent).value;
    r := Some(normalized);
  }

  /** The inner loop (lines 20-28): `norm_items` built item by item. */
  method NormalizeKey(key: string, items: seq<RawItem>, isToken: bool, percent: real -> string)
    returns (r: Option<seq<Entry>>)
    ensures r == NormalizeItems(key, items, isToken, percent)
  {
    var normItems: seq<Entry> := [];
    var i := 0;
    while i < |items|
      invariant 0 <= i <= |items|
      invariant NormalizeItems(key, items[..i], isToken, percent) == Some(normItems)
    {
      var item := items[i];
      var e: Entry;
      if isToken {
        if !item.Triple? {
          NormalizeItemsExact(key, items, isToken, percent);
          assert NormalizeItem(key, items[i], isToken, percent).None?;
          return None;
        }
        e := Entry(TokenLoc(item.loc1, item.loc2, percent(item.ratio)), "", "token");
      } else {
        var typ := if ' ' in key then FirstWord(key) else Some("text");
        if !item.Pair? || typ.None? {
          NormalizeItemsExact(key, items, isToken, percent);
          assert NormalizeItem(key, items[i], isToken, percent).None?;
          return None;
        }
        e := Entry(item.loc, item.snippet, typ.value);
      }
      assert items[..i + 1][..i] == items[..i];
      normItems := normItems + [e];
      i := i + 1;
    }
    assert items[..|items|] == items;
    r := Some(normItems);
  }

  /** `{k: v for k, v in normalized.items() if len(v) >= min_occurrences}`
      (line 47). */
  function Shown(normalized: map<string, seq<Entry>>, minOccurrences: int): (d: map<string, seq<Entry>>)
    ensures d.Keys <= normalized.Keys
    ensures forall k :: k in d ==> d[k] == normalized[k] && |d[k]| >= minOccurrences
    ensures forall k :: k in normalized && |normalized[k]| >= minOccurrences ==> k in d
  {
    map k | k in normalized && |normalized[k]| >= minOccurrences :: normalized[k]
  }

  /** After normalising and filtering, a key is shown iff it has at least
      `min_occurrences` items and at least one; its entries are its items,
      in order, each of the shape its mode gives. */
  lemma ShownExact(dups: map<string, seq<RawItem>>, isToken: bool, percent: real -> string, minOccurrences: int, key: string)
    requires Normalize(dups, isToken, percent).Some?
    ensures var d := Shown(Normalize(dups, isToken, percent).value, minOccurrences);
      && (key in d <==> key in dups && |dups[key]| >= minOccurrences && |dups[key]| >= 1)
      && (key in d ==>
            && |d[key]| == |dups[key]|
            && forall i :: 0 <= i < |d[key]| ==>
                 if isToken then
                   dups[key][i].Triple? && d[key][i] == Entry(TokenLoc(dups[key][i].loc1, dups[key][i].loc2, percent(dups[key][i].ratio)), "", "token")
                 else
                   && dups[key][i].Pair?
                   && d[key][i].loc == dups[key][i].loc
                   && d[key][i].snippet == dups[key][i].snippet
                   && Some(d[key][i].typ) == EntryType(key))
  {
    if key in dups {
      NormalizeItemsExact(key, dups[key], isToken, percent);
    }
  }

  /** Definition keys f"{kind} {name}" render with the kind as their type. */
  lemma {:induction false} DefinitionEntryType(t: Kind, name: string)
    ensures EntryType(KindName(t) + " " + name) == Some(KindName(t))
  {
    var w := KindName(t);
    assert forall i :: 0 <= i < |w| ==> !IsSpace(w[i]) by {
      match t
      case Class =>
      case Def =>
      case AsyncDef =>
    }
    var key := w + " " + name;
    assert key == [] + w + (" " + name);
    FirstWordOf([], w, " " + name);
    assert ' ' in key by { assert key[|w|] == ' '; }
  }

  /** How `render_duplicates` (lines 34-76) ends, rendering aside. */
  datatype RenderEnd =
    | JsonPrinted(duplicateCount: nat)   // JSON output, returns at line 59
    | ConsolePrinted                     // console output, returns normally
    | Exited(code: int)                  // SystemExit at line 76
    | Raised                             // normalisation raised

  function RenderDuplicates(all: map<string, seq<RawItem>>, isToken: bool, percent: real -> string,
                            jsonOutput: bool, failOnDuplicates: bool, minOccurrences: int): (e: RenderEnd)
    ensures e == Raised <==> Normalize(all, isToken, percent).None?
    ensures e.Exited? ==> e.code == 1 && failOnDuplicates && !jsonOutput
    ensures jsonOutput && e != Raised ==> e.JsonPrinted?
  {
    match Normalize(all, isToken, percent)
    case None => Raised
    case Some(normalized) =>
      var duplicates := Shown(normalized, minOccurrences);
      if jsonOutput then JsonPrinted(|duplicates.Keys|)
      else if failOnDuplicates && duplicates != map[] then Exited(1)
      else ConsolePrinted
  }

  /** The keys that survive normalisation and the filter. */
  function Surviving(all: map<string, seq<RawItem>>, minOccurrences: int): set<string> {
    set k | k in all && |all[k]| >= minOccurrences && |all[k]| >= 1
  }

  /** Rendering fails with exit 1 iff the output is not JSON, the fail flag
      is set and some key survives; JSON reports the number of survivors. */
  lemma RenderOutcome(all: map<string, seq<RawItem>>, isToken: bool, percent: real -> string,
                      jsonOutput: bool, failOnDuplicates: bool, minOccurrences: int)
    requires Normalize(all, isToken, percent).Some?
    ensures var e := RenderDuplicates(all, isToken, percent, jsonOutput, failOnDuplicates, minOccurrences);
      && (e == Exited(1) <==> !jsonOutput && failOnDuplicates && Surviving(all, minOccurrences) != {})
      && (jsonOutput ==> e == JsonPrinted(|Surviving(all, minOccurrences)|))
      && (e != Raised)
  {
    var d := Shown(Normalize(all, isToken, percent).value, minOccurrences);
    forall k ensures k in d <==> k in Surviving(all, minOccurrences) {
      ShownExact(all, isToken, percent, minOccurrences, k);
    }
    assert d.Keys == Surviving(all, minOccurrences);
    if Surviving(all, minOccurrences) != {} {
      var k :| k in Surviving(all, minOccurrences);
      assert k in d;
    }
  }

  /** Rendering raises iff some item has the wrong shape for the mode, or
      a non-token key with a blank in it is blank throughout. */
  lemma RenderRaises(all: map<string, seq<RawItem>>, isToken: bool, percent: real -> string,
                     jsonOutput: bool, failOnDuplicates: bool, minOccurrences: int)
    ensures RenderDuplicates(all, isToken, percent, jsonOutput, failOnDuplicates, minOccurrences) == Raised
            <==> exists k, i :: k in all && 0 <= i < |all[k]| && NormalizeItem(k, all[k][i], isToken, percent).None?
  {
    forall k | k in all {
      NormalizeItemsExact(k, all[k], isToken, percent);
    }
  }
}
