/** Shared vocabulary of the detection core: optional values, the closed set of
    definition kinds, line numbers and the (location, snippet) items that every
    definition-mode map carries. */
module Common {

  datatype Option<+T> = None | Some(value: T) {
    function GetOr(default: T): T {
      match this
      case Some(v) => v
      case None => default
    }
  }

  /** The three definition kinds a scan may request; the source keys them by
      the strings "class", "def" and "async_def" (config.py KNOWN_TYPES). */
  datatype Kind = Class | Def | AsyncDef

  const AllKinds: set<Kind> := {Class, Def, AsyncDef}

  function KindName(k: Kind): (s: string)
    ensures |s| > 0 && ' ' !in s
  {
    match k
    case Class => "class"
    case Def => "def"
    case AsyncDef => "async_def"
  }

  function ParseKind(s: string): (r: Option<Kind>)
    ensures r.Some? ==> KindName(r.value) == s
    ensures r.None? ==> forall k :: KindName(k) != s
  {
    if s == "class" then Some(Class)
    else if s == "def" then Some(Def)
    else if s == "async_def" then Some(AsyncDef)
    else None
  }

  lemma KindNameInjective(a: Kind, b: Kind)
    requires KindName(a) == KindName(b)
    ensures a == b
  {
    match a
    case Class => assert KindName(a)[0] == 'c';
    case Def => assert KindName(a)[0] == 'd';
    case AsyncDef => assert KindName(a)[0] == 'a';
  }

  /** Line numbers of parsed nodes start at 1. */
  type LineNo = n: int | n >= 1 witness 1

  /** One occurrence in definition mode: "path:line" and the preview text. */
  datatype Item = Item(loc: string, snippet: string)
}
