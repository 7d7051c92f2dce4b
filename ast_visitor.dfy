/** EnhancedDefinitionVisitor (src/duplifinder/ast_visitor.py): a recursive
    walk over a parsed module that appends (name, lineno, end_lineno, "")
    entries to a per-kind `definitions` dictionary. */
module AstVisitor {
  import opened Common
  import MultiMap
  import Seqs

  /** The parsed syntax tree, reduced to what the visitor inspects. `children`
      are a node's child nodes in `ast.iter_child_nodes` order; for a class
      these are its base and decorator expressions and its body statements,
      and as expressions never hold function definitions, the function
      definitions among a class's children are exactly those directly in its
      body. */
  datatype Node =
    | ClassDef(name: string, lineno: LineNo, endLineno: Option<LineNo>, children: seq<Node>)
    | FunctionDef(name: string, lineno: LineNo, endLineno: Option<LineNo>, children: seq<Node>)
    | AsyncFunctionDef(name: string, lineno: LineNo, endLineno: Option<LineNo>, children: seq<Node>)
    | Other(children: seq<Node>)

  /** One visitor entry: (name, lineno, end_lineno, ""). */
  datatype Entry = Entry(name: string, lineno: LineNo, endLineno: LineNo, extra: string)

  type Record = (Kind, Entry)

  /** The kind a node is recorded under (KNOWN_TYPES read backwards). */
  function KindOf(n: Node): (k: Option<Kind>)
    ensures k.None? <==> n.Other?
    ensures k == Some(Class) <==> n.ClassDef?
    ensures k == Some(Def) <==> n.FunctionDef?
    ensures k == Some(AsyncDef) <==> n.AsyncFunctionDef?
  {
    match n
    case ClassDef(_, _, _, _) => Some(Class)
    case FunctionDef(_, _, _, _) => Some(Def)
    case AsyncFunctionDef(_, _, _, _) => Some(AsyncDef)
    case Other(_) => None
  }

  /** `node.end_lineno if node.end_lineno is not None else node.lineno`. */
  function End(n: Node): LineNo
    requires !n.Other?
  {
    n.endLineno.GetOr(n.lineno)
  }

  /** The entry recorded for a definition node under the name `name`. */
  function EntryOf(n: Node, name: string): Entry
    requires !n.Other?
  {
    Entry(name, n.lineno, End(n), "")
  }

  /** What `generic_visit` records for the node itself: a function or async
      function of a requested kind under its bare name; never a class. */
  function GenericRecords(n: Node, types: set<Kind>): seq<Record> {
    if (n.FunctionDef? || n.AsyncFunctionDef?) && KindOf(n).value in types
    then [(KindOf(n).value, EntryOf(n, n.name))]
    else []
  }

  /** The class entry `visit_ClassDef` records. */
  function ClassRecords(n: Node, types: set<Kind>): seq<Record>
    requires n.ClassDef?
  {
    if Class in types then [(Class, EntryOf(n, n.name))] else []
  }

  /** The qualified "Class.member" entry for one child of a class. */
  function MemberRecord(cls: string, c: Node, types: set<Kind>): seq<Record> {
    if (c.FunctionDef? || c.AsyncFunctionDef?) && KindOf(c).value in types
    then [(KindOf(c).value, EntryOf(c, cls + "." + c.name))]
    else []
  }

  /** The qualified entries for the first `i` children of a class. */
  function MemberRecords(n: Node, types: set<Kind>, i: nat): seq<Record>
    requires n.ClassDef? && i <= |n.children|
  {
    if i == 0 then []
    else MemberRecords(n, types, i - 1) + MemberRecord(n.name, n.children[i - 1], types)
  }

  /** Everything the visit of a node appends before it descends into its
      children. */
  function Head(n: Node, types: set<Kind>): seq<Record> {
    if n.ClassDef? then ClassRecords(n, types) + MemberRecords(n, types, |n.children|)
    else GenericRecords(n, types)
  }

  /** Every node of the tree once, each parent before its children: the
      order in which `visit` reaches the nodes. */
  function Preorder(n: Node): seq<Node>
    decreases n, |n.children| + 1
  {
    [n] + PreorderChildren(n, |n.children|)
  }

  /** The pre-order of the subtrees of the first `i` children of `n`. */
  function PreorderChildren(n: Node, i: nat): seq<Node>
    requires i <= |n.children|
    decreases n, i
  {
    if i == 0 then [] else PreorderChildren(n, i - 1) + Preorder(n.children[i - 1])
  }

  /** The heads of a sequence of nodes, one after another. */
  function Heads(ns: seq<Node>, types: set<Kind>): seq<Record> {
    if ns == [] then [] else Head(ns[0], types) + Heads(ns[1..], types)
  }

  lemma {:induction false} HeadsConcat(a: seq<Node>, b: seq<Node>, types: set<Kind>)
    ensures Heads(a + b, types) == Heads(a, types) + Heads(b, types)
  {
    if a == [] {
      assert a + b == b;
    } else {
      var rest := a[1..];
      assert (a + b)[0] == a[0] && (a + b)[1..] == rest + b;
      assert Heads(a + b, types) == Head(a[0], types) + Heads(rest + b, types);
      assert Heads(rest + b, types) == Heads(rest, types) + Heads(b, types) by {
        HeadsConcat(rest, b, types);
      }
      assert Heads(a, types) == Head(a[0], types) + Heads(rest, types);
      Seqs.Reassociate(Heads(a + b, types), Head(a[0], types), Heads(rest + b, types), Heads(rest, types), Heads(b, types));
    }
  }

  /** The records `visit(n)` appends, in append order: the head of every
      node of the tree, in pre-order. */
  function Walk(n: Node, types: set<Kind>): seq<Record> {
    Heads(Preorder(n), types)
  }

  /** The records appended by visiting the first `i` children of `n`. */
  function WalkChildren(n: Node, types: set<Kind>, i: nat): seq<Record>
    requires i <= |n.children|
  {
    Heads(PreorderChildren(n, i), types)
  }

  lemma WalkUnfold(n: Node, types: set<Kind>)
    ensures Walk(n, types) == Head(n, types) + WalkChildren(n, types, |n.children|)
  {
    var below := PreorderChildren(n, |n.children|);
    assert Preorder(n) == [n] + below;
    assert Heads([n] + below, types) == Heads([n], types) + Heads(below, types) by {
      HeadsConcat([n], below, types);
    }
    assert Heads([n], types) == Head(n, types) by {
      Seqs.DropEmpty(Heads([n], types), Head(n, types), Heads([n][1..], types));
    }
  }

  lemma WalkChildrenStep(n: Node, types: set<Kind>, i: nat)
    requires i < |n.children|
    ensures WalkChildren(n, types, i + 1) == WalkChildren(n, types, i) + Walk(n.children[i], types)
  {
    assert PreorderChildren(n, i + 1) == PreorderChildren(n, i) + Preorder(n.children[i]);
    HeadsConcat(PreorderChildren(n, i), Preorder(n.children[i]), types);
  }

  lemma WalkChildrenZero(n: Node, types: set<Kind>)
    ensures WalkChildren(n, types, 0) == []
  {
    assert PreorderChildren(n, 0) == [];
  }

  class DefinitionVisitor {
    /** `self.definitions`, a defaultdict(list) keyed by kind. */
    var definitions: map<Kind, seq<Entry>>
    /** `self.types_to_search`. */
    const typesToSearch: set<Kind>

    constructor (typesToSearch: set<Kind>)
      ensures this.typesToSearch == typesToSearch && definitions == map[]
    {
      this.typesToSearch := typesToSearch;
      definitions := map[];
    }

    /** `NodeVisitor.visit`: classes go to `visit_ClassDef`, every other node
        to the overridden `generic_visit`. */
    method Visit(n: Node)
      modifies this
      decreases n, 2
      ensures definitions == MultiMap.AppendAll(old(definitions), Walk(n, typesToSearch))
    {
      if n.ClassDef? {
        VisitClassDef(n);
      } else {
        GenericVisit(n);
        WalkUnfold(n, typesToSearch);
      }
    }

    /** Records the class, then a qualified entry for each function or async
        function directly in its body, then continues with `generic_visit`. */
    method VisitClassDef(n: Node)
      requires n.ClassDef?
      modifies this
      decreases n, 1
      ensures definitions == MultiMap.AppendAll(old(definitions), Walk(n, typesToSearch))
    {
      ghost var start := definitions;
      RecordClassAndMembers(n);
      ghost var head := Head(n, typesToSearch);
      ghost var rest := WalkChildren(n, typesToSearch, |n.children|);
      WalkUnfold(n, typesToSearch);
      assert GenericRecords(n, typesToSearch) + rest == rest;
      GenericVisit(n);
      MultiMap.AppendAllConcat(start, head, rest);
    }

    /** The part of `visit_ClassDef` before its call to `generic_visit`. */
    method RecordClassAndMembers(n: Node)
      requires n.ClassDef?
      modifies this
      ensures definitions == MultiMap.AppendAll(old(definitions), Head(n, typesToSearch))
    {
      ghost var start := definitions;
      if Class in typesToSearch {
        definitions := MultiMap.Append(definitions, Class, EntryOf(n, n.name));
      }
      assert definitions == MultiMap.AppendAll(start, ClassRecords(n, typesToSearch) + MemberRecords(n, typesToSearch, 0)) by {
        ClassRecordsAppended(start, n, typesToSearch);
      }
      if Def in typesToSearch || AsyncDef in typesToSearch {
        for i := 0 to |n.children|
          invariant definitions == MultiMap.AppendAll(start, ClassRecords(n, typesToSearch) + MemberRecords(n, typesToSearch, i))
        {
          ghost var before := definitions;
          var item := n.children[i];
          if item.FunctionDef? || item.AsyncFunctionDef? {
            var t := if item.FunctionDef? then Def else AsyncDef;
            if t in typesToSearch {
              definitions := MultiMap.Append(definitions, t, EntryOf(item, n.name + "." + item.name));
            }
          }
          MemberAppended(start, before, definitions, n, typesToSearch, i);
        }
      } else {
        NoMembersWithoutFunctionKinds(n, typesToSearch, |n.children|);
      }
    }

    /** Records a function or async function under its bare name when its
        kind is requested, then visits every child. */
    method GenericVisit(n: Node)
      modifies this
      decreases n, 0
      ensures definitions == MultiMap.AppendAll(old(definitions), GenericRecords(n, typesToSearch) + WalkChildren(n, typesToSearch, |n.children|))
    {
      ghost var start := definitions;
      var k := KindOf(n);
      if k.Some? && k.value != Class && k.value in typesToSearch {
        definitions := MultiMap.Append(definitions, k.value, EntryOf(n, n.name));
      }
      assert definitions == MultiMap.AppendAll(start, GenericRecords(n, typesToSearch));
      ghost var mid := definitions;
      VisitChildren(n);
      MultiMap.AppendAllConcat(start, GenericRecords(n, typesToSearch), WalkChildren(n, typesToSearch, |n.children|));
    }

    /** The loop of `NodeVisitor.generic_visit`: visit each child in order. */
    method VisitChildren(n: Node)
      modifies this
      decreases n, 0, 0
      ensures definitions == MultiMap.AppendAll(old(definitions), WalkChildren(n, typesToSearch, |n.children|))
    {
      ghost var start := definitions;
      assert definitions == MultiMap.AppendAll(start, WalkChildren(n, typesToSearch, 0)) by {
        WalkChildrenZero(n, typesToSearch);
      }
      for i := 0 to |n.children|
        invariant definitions == MultiMap.AppendAll(start, WalkChildren(n, typesToSearch, i))
      {
        ghost var before := definitions;
        Visit(n.children[i]);
        VisitedChild(start, before, n, typesToSearch, i);
      }
    }
  }

  lemma ClassRecordsAppended(start: map<Kind, seq<Entry>>, n: Node, types: set<Kind>)
    requires n.ClassDef?
    ensures MultiMap.AppendAll(start, ClassRecords(n, types) + MemberRecords(n, types, 0))
      == if Class in types then MultiMap.Append(start, Class, EntryOf(n, n.name)) else start
  {
    assert ClassRecords(n, types) + MemberRecords(n, types, 0) == ClassRecords(n, types);
    MultiMap.AppendAllSnoc(start, [], Class, EntryOf(n, n.name));
  }

  /** One turn of the member loop of `visit_ClassDef`. */
  lemma MemberAppended(start: map<Kind, seq<Entry>>, before: map<Kind, seq<Entry>>, after: map<Kind, seq<Entry>>,
                       n: Node, types: set<Kind>, i: nat)
    requires n.ClassDef? && i < |n.children|
    requires before == MultiMap.AppendAll(start, ClassRecords(n, types) + MemberRecords(n, types, i))
    requires var c := n.children[i];
      after == if (c.FunctionDef? || c.AsyncFunctionDef?) && KindOf(c).value in types
               then MultiMap.Append(before, KindOf(c).value, EntryOf(c, n.name + "." + c.name))
               else before
    ensures after == MultiMap.AppendAll(start, ClassRecords(n, types) + MemberRecords(n, types, i + 1))
  {
    var done := ClassRecords(n, types) + MemberRecords(n, types, i);
    var next := MemberRecord(n.name, n.children[i], types);
    assert ClassRecords(n, types) + MemberRecords(n, types, i + 1) == done + next;
    MultiMap.AppendAllConcat(start, done, next);
    if next != [] {
      assert MultiMap.AppendAll(before, next) == MultiMap.Append(before, next[0].0, next[0].1);
    }
  }

  /** One turn of the loop of `generic_visit`: after the i-th child, the
      records of the first i + 1 children have been appended. */
  lemma VisitedChild(start: map<Kind, seq<Entry>>, before: map<Kind, seq<Entry>>, n: Node, types: set<Kind>, i: nat)
    requires i < |n.children|
    requires before == MultiMap.AppendAll(start, WalkChildren(n, types, i))
    ensures MultiMap.AppendAll(before, Walk(n.children[i], types)) == MultiMap.AppendAll(start, WalkChildren(n, types, i + 1))
  {
    WalkChildrenStep(n, types, i);
    MultiMap.AppendAllConcat(start, WalkChildren(n, types, i), Walk(n.children[i], types));
  }

  lemma {:induction false} NoMembersWithoutFunctionKinds(n: Node, types: set<Kind>, i: nat)
    requires n.ClassDef? && i <= |n.children|
    requires Def !in types && AsyncDef !in types
    ensures MemberRecords(n, types, i) == []
  {
    if i > 0 {
      NoMembersWithoutFunctionKinds(n, types, i - 1);
    }
  }

  // ---------------------------------------------------------------------
  // What the walk records, stated as properties of the pre-order.

  /** The class entries of a node sequence, one per ClassDef, in order. */
  function ClassEntries(ns: seq<Node>): seq<Entry> {
    if ns == [] then []
    else (if ns[0].ClassDef? then [EntryOf(ns[0], ns[0].name)] else []) + ClassEntries(ns[1..])
  }

  /** Number of nodes of kind `t` in `ns`. */
  function CountKind(ns: seq<Node>, t: Kind): nat {
    if ns == [] then 0 else (if KindOf(ns[0]) == Some(t) then 1 else 0) + CountKind(ns[1..], t)
  }

  /** Number of children of kind `t` over all ClassDef nodes of `ns`. */
  function CountMembers(ns: seq<Node>, t: Kind): nat {
    if ns == [] then 0
    else (if ns[0].ClassDef? then CountKind(ns[0].children, t) else 0) + CountMembers(ns[1..], t)
  }

  lemma {:induction false} CountKindSnoc(ns: seq<Node>, m: Node, t: Kind)
    ensures CountKind(ns + [m], t) == CountKind(ns, t) + (if KindOf(m) == Some(t) then 1 else 0)
  {
    if ns == [] {
      assert ns + [m] == [m];
    } else {
      assert (ns + [m])[1..] == ns[1..] + [m];
      CountKindSnoc(ns[1..], m, t);
    }
  }

  /** The member records of a class carry requested function kinds only,
      each with an empty fourth component. */
  lemma {:induction false} MemberRecordsShape(n: Node, types: set<Kind>, i: nat)
    requires n.ClassDef? && i <= |n.children|
    ensures forall j :: 0 <= j < |MemberRecords(n, types, i)| ==>
      var r := MemberRecords(n, types, i)[j];
      r.0 != Class && r.0 in types && r.1.extra == ""
  {
    if i > 0 {
      MemberRecordsShape(n, types, i - 1);
    }
  }

  lemma {:induction false} MemberCount(n: Node, types: set<Kind>, i: nat, t: Kind)
    requires n.ClassDef? && i <= |n.children| && t != Class
    ensures |MultiMap.Select(MemberRecords(n, types, i), t)|
      == if t in types then CountKind(n.children[..i], t) else 0
  {
    if i > 0 {
      var c := n.children[i - 1];
      var prev := MemberRecords(n, types, i - 1);
      assert |MultiMap.Select(prev, t)| == if t in types then CountKind(n.children[..i - 1], t) else 0 by {
        MemberCount(n, types, i - 1, t);
      }
      assert MultiMap.Select(MemberRecords(n, types, i), t) == MultiMap.Select(prev, t) + MultiMap.Select(MemberRecord(n.name, c, types), t) by {
        MultiMap.SelectConcat(prev, MemberRecord(n.name, c, types), t);
      }
      assert CountKind(n.children[..i], t) == CountKind(n.children[..i - 1], t) + (if KindOf(c) == Some(t) then 1 else 0) by {
        assert n.children[..i] == n.children[..i - 1] + [c];
        CountKindSnoc(n.children[..i - 1], c, t);
      }
    }
  }

  /** What one node's head holds under "class". */
  lemma HeadClass(m: Node, types: set<Kind>)
    ensures MultiMap.Select(Head(m, types), Class)
      == if Class in types && m.ClassDef? then [EntryOf(m, m.name)] else []
  {
    if m.ClassDef? {
      var mr := MemberRecords(m, types, |m.children|);
      assert MultiMap.Select(mr, Class) == [] by {
        MemberRecordsShape(m, types, |m.children|);
        MultiMap.SelectEmpty(mr, Class);
      }
      MultiMap.SelectConcat(ClassRecords(m, types), mr, Class);
    }
  }

  /** How many records one node's head holds under a function kind `t`. */
  lemma HeadCount(m: Node, types: set<Kind>, t: Kind)
    requires t != Class
    ensures |MultiMap.Select(Head(m, types), t)|
      == if t in types then (if KindOf(m) == Some(t) then 1 else 0) + (if m.ClassDef? then CountKind(m.children, t) else 0) else 0
  {
    if m.ClassDef? {
      var mr := MemberRecords(m, types, |m.children|);
      assert |MultiMap.Select(mr, t)| == if t in types then CountKind(m.children, t) else 0 by {
        MemberCount(m, types, |m.children|, t);
        assert m.children[..|m.children|] == m.children;
      }
      MultiMap.SelectConcat(ClassRecords(m, types), mr, t);
    }
  }

  lemma HeadShape(m: Node, types: set<Kind>)
    ensures forall j :: 0 <= j < |Head(m, types)| ==> Head(m, types)[j].0 in types && Head(m, types)[j].1.extra == ""
  {
    if m.ClassDef? {
      MemberRecordsShape(m, types, |m.children|);
    }
  }

  lemma {:induction false} HeadsClass(ns: seq<Node>, types: set<Kind>)
    ensures MultiMap.Select(Heads(ns, types), Class) == if Class in types then ClassEntries(ns) else []
  {
    if ns != [] {
      var m := ns[0];
      var rest := Heads(ns[1..], types);
      assert MultiMap.Select(Heads(ns, types), Class) == MultiMap.Select(Head(m, types), Class) + MultiMap.Select(rest, Class) by {
        MultiMap.SelectConcat(Head(m, types), rest, Class);
      }
      assert MultiMap.Select(rest, Class) == if Class in types then ClassEntries(ns[1..]) else [] by {
        HeadsClass(ns[1..], types);
      }
      HeadClass(m, types);
    }
  }

  lemma {:induction false} HeadsCount(ns: seq<Node>, types: set<Kind>, t: Kind)
    requires t != Class
    ensures |MultiMap.Select(Heads(ns, types), t)|
      == if t in types then CountKind(ns, t) + CountMembers(ns, t) else 0
  {
    if ns != [] {
      var m := ns[0];
      var rest := Heads(ns[1..], types);
      assert MultiMap.Select(Heads(ns, types), t) == MultiMap.Select(Head(m, types), t) + MultiMap.Select(rest, t) by {
        MultiMap.SelectConcat(Head(m, types), rest, t);
      }
      assert |MultiMap.Select(rest, t)| == if t in types then CountKind(ns[1..], t) + CountMembers(ns[1..], t) else 0 by {
        HeadsCount(ns[1..], types, t);
      }
      HeadCount(m, types, t);
    }
  }

  lemma {:induction false} HeadsShape(ns: seq<Node>, types: set<Kind>)
    ensures forall j :: 0 <= j < |Heads(ns, types)| ==>
      Heads(ns, types)[j].0 in types && Heads(ns, types)[j].1.extra == ""
  {
    if ns != [] {
      var rest := Heads(ns[1..], types);
      assert forall j :: 0 <= j < |rest| ==> rest[j].0 in types && rest[j].1.extra == "" by {
        HeadsShape(ns[1..], types);
      }
      HeadShape(ns[0], types);
    }
  }

  /** With "class" requested, every ClassDef anywhere in the tree gives
      exactly one "class" entry (name, lineno, end_lineno or lineno, ""), in
      document order, and nothing else is a class entry (generic_visit never
      records a class); without it there are none. */
  lemma ClassEntriesExact(n: Node, types: set<Kind>)
    ensures MultiMap.Select(Walk(n, types), Class)
      == if Class in types then ClassEntries(Preorder(n)) else []
  {
    HeadsClass(Preorder(n), types);
  }

  /** Entries appear only under requested kinds, and the fourth component of
      every entry is "". */
  lemma RecordsRequested(n: Node, types: set<Kind>)
    ensures forall j :: 0 <= j < |Walk(n, types)| ==>
      Walk(n, types)[j].0 in types && Walk(n, types)[j].1.extra == ""
  {
    HeadsShape(Preorder(n), types);
  }

  /** For t in {def, async_def}: the number of entries under t is the number
      of t-nodes anywhere in the tree (bare names, from generic_visit) plus
      the number of t-nodes directly in a class body (qualified names, from
      visit_ClassDef). So every method is recorded twice, every other
      function once, and nested functions are never qualified. */
  lemma FunctionEntryCount(n: Node, types: set<Kind>, t: Kind)
    requires t != Class
    ensures |MultiMap.Select(Walk(n, types), t)|
      == if t in types then CountKind(Preorder(n), t) + CountMembers(Preorder(n), t) else 0
  {
    HeadsCount(Preorder(n), types, t);
  }

  lemma {:induction false} MemberRecordsPrefix(n: Node, types: set<Kind>, i: nat, j: nat)
    requires n.ClassDef? && i <= j <= |n.children|
    ensures MemberRecords(n, types, i) <= MemberRecords(n, types, j)
    decreases j - i
  {
    if i < j {
      MemberRecordsPrefix(n, types, i, j - 1);
    }
  }

  lemma {:induction false} PreorderChildrenPrefix(n: Node, i: nat, j: nat)
    requires i <= j <= |n.children|
    ensures PreorderChildren(n, i) <= PreorderChildren(n, j)
    decreases j - i
  {
    if i < j {
      PreorderChildrenPrefix(n, i, j - 1);
      Seqs.PrefixExtend(PreorderChildren(n, i), PreorderChildren(n, j - 1), Preorder(n.children[j - 1]));
    }
  }

  lemma HeadsPrefix(a: seq<Node>, b: seq<Node>, types: set<Kind>)
    requires a <= b
    ensures Heads(a, types) <= Heads(b, types)
  {
    assert b == a + b[|a|..];
    HeadsConcat(a, b[|a|..], types);
    Seqs.PrefixExtend(Heads(a, types), Heads(a, types), Heads(b[|a|..], types));
  }

  lemma WalkChildrenPrefix(n: Node, types: set<Kind>, i: nat, j: nat)
    requires i <= j <= |n.children|
    ensures WalkChildren(n, types, i) <= WalkChildren(n, types, j)
  {
    PreorderChildrenPrefix(n, i, j);
    HeadsPrefix(PreorderChildren(n, i), PreorderChildren(n, j), types);
  }

  /** Where the qualified entry of the i-th child sits in the head of its
      class. */
  lemma QualifiedInHead(c: Node, types: set<Kind>, i: nat)
    requires c.ClassDef? && i < |c.children|
    requires !c.children[i].Other? && !c.children[i].ClassDef?
    requires KindOf(c.children[i]).value in types
    ensures var p := |ClassRecords(c, types)| + |MemberRecords(c, types, i)|;
      var m := c.children[i];
      p < |Head(c, types)| && Head(c, types)[p] == (KindOf(m).value, EntryOf(m, c.name + "." + m.name))
  {
    var m := c.children[i];
    var qualified := (KindOf(m).value, EntryOf(m, c.name + "." + m.name));
    var before := MemberRecords(c, types, i);
    var all := MemberRecords(c, types, |c.children|);
    assert MemberRecords(c, types, i + 1) == before + [qualified];
    assert |before| < |all| && all[|before|] == qualified by {
      MemberRecordsPrefix(c, types, i + 1, |c.children|);
    }
    assert Head(c, types) == ClassRecords(c, types) + all;
  }

  /** Where the bare entry of the i-th child sits in the walk of the
      children of its parent. */
  lemma BareInChildren(c: Node, types: set<Kind>, i: nat)
    requires i < |c.children|
    requires !c.children[i].Other? && !c.children[i].ClassDef?
    requires KindOf(c.children[i]).value in types
    ensures var k := |WalkChildren(c, types, i)|;
      var m := c.children[i];
      k < |WalkChildren(c, types, |c.children|)| && WalkChildren(c, types, |c.children|)[k] == (KindOf(m).value, EntryOf(m, m.name))
  {
    var m := c.children[i];
    assert Walk(m, types) == [(KindOf(m).value, EntryOf(m, m.name))] + WalkChildren(m, types, |m.children|) by {
      WalkUnfold(m, types);
    }
    assert WalkChildren(c, types, i + 1) == WalkChildren(c, types, i) + Walk(m, types) by {
      WalkChildrenStep(c, types, i);
    }
    WalkChildrenPrefix(c, types, i + 1, |c.children|);
  }

  /** For a method of a class (a function or async function of a requested
      kind directly in the class body), the walk of the class appends the
      qualified "Class.method" entry before the bare "method" entry. */
  lemma QualifiedBeforeBare(c: Node, types: set<Kind>, i: nat)
    requires c.ClassDef? && i < |c.children|
    requires !c.children[i].Other? && !c.children[i].ClassDef?
    requires KindOf(c.children[i]).value in types
    ensures var t := KindOf(c.children[i]).value;
      var m := c.children[i];
      exists p, q :: 0 <= p < q < |Walk(c, types)|
        && Walk(c, types)[p] == (t, EntryOf(m, c.name + "." + m.name))
        && Walk(c, types)[q] == (t, EntryOf(m, m.name))
  {
    var t := KindOf(c.children[i]).value;
    var m := c.children[i];
    var w := Walk(c, types);
    var head := Head(c, types);
    var p := |ClassRecords(c, types)| + |MemberRecords(c, types, i)|;
    var q := |head| + |WalkChildren(c, types, i)|;
    assert p < |head| && w[p] == (t, EntryOf(m, c.name + "." + m.name)) by {
      WalkUnfold(c, types);
      QualifiedInHead(c, types, i);
    }
    assert q < |w| && w[q] == (t, EntryOf(m, m.name)) by {
      WalkUnfold(c, types);
      BareInChildren(c, types, i);
    }
  }

  // ---------------------------------------------------------------------
  // The fixture module of the test suite:
  //   class SingletonClass:      # 1
  //       def method(self):      # 2
  //           pass               # 3
  //                              # 4
  //   def helper():              # 5
  //       pass                   # 6

  function Fixture(): Node {
    Other([
      ClassDef("SingletonClass", 1, Some(3), [
        FunctionDef("method", 2, Some(3), [Other([Other([])]), Other([])])
      ]),
      FunctionDef("helper", 5, Some(6), [Other([]), Other([])])
    ])
  }

  /** The walk of a node with no children is its head. */
  lemma WalkLeaf(n: Node, types: set<Kind>)
    requires n.children == []
    ensures Walk(n, types) == Head(n, types)
  {
    WalkUnfold(n, types);
    WalkChildrenZero(n, types);
    Seqs.DropEmpty(Walk(n, types), Head(n, types), WalkChildren(n, types, 0));
  }

  /** The walk of a node with exactly one or two children. */
  lemma WalkOne(n: Node, types: set<Kind>)
    requires |n.children| == 1
    ensures Walk(n, types) == Head(n, types) + Walk(n.children[0], types)
  {
    WalkUnfold(n, types);
    WalkChildrenStep(n, types, 0);
    WalkChildrenZero(n, types);
    Seqs.OneAfterEmpty(Walk(n, types), Head(n, types), WalkChildren(n, types, 1), WalkChildren(n, types, 0), Walk(n.children[0], types));
  }

  lemma WalkTwo(n: Node, types: set<Kind>)
    requires |n.children| == 2
    ensures Walk(n, types) == Head(n, types) + Walk(n.children[0], types) + Walk(n.children[1], types)
  {
    WalkUnfold(n, types);
    WalkChildrenStep(n, types, 0);
    WalkChildrenStep(n, types, 1);
    WalkChildrenZero(n, types);
    Seqs.TwoAfterEmpty(Walk(n, types), Head(n, types), WalkChildren(n, types, 2), WalkChildren(n, types, 1),
                       WalkChildren(n, types, 0), Walk(n.children[0], types), Walk(n.children[1], types));
  }

  lemma FixtureMethodWalk()
    ensures Walk(Fixture().children[0].children[0], AllKinds) == [(Def, Entry("method", 2, 3, ""))]
  {
    var meth := Fixture().children[0].children[0];
    assert Walk(meth.children[0], AllKinds) == [] by {
      WalkLeaf(meth.children[0].children[0], AllKinds);
      WalkOne(meth.children[0], AllKinds);
    }
    assert Walk(meth.children[1], AllKinds) == [] by {
      WalkLeaf(meth.children[1], AllKinds);
    }
    WalkTwo(meth, AllKinds);
  }

  lemma FixtureClassWalk()
    ensures Walk(Fixture().children[0], AllKinds)
      == [(Class, Entry("SingletonClass", 1, 3, "")), (Def, Entry("SingletonClass.method", 2, 3, "")), (Def, Entry("method", 2, 3, ""))]
  {
    var c := Fixture().children[0];
    var meth := c.children[0];
    assert Head(c, AllKinds) == [(Class, Entry("SingletonClass", 1, 3, "")), (Def, Entry("SingletonClass.method", 2, 3, ""))] by {
      assert c.name + "." + meth.name == "SingletonClass.method";
      assert MemberRecords(c, AllKinds, 1) == MemberRecords(c, AllKinds, 0) + MemberRecord(c.name, meth, AllKinds);
    }
    assert Walk(c, AllKinds) == Head(c, AllKinds) + Walk(meth, AllKinds) by {
      WalkOne(c, AllKinds);
    }
    FixtureMethodWalk();
  }

  lemma FixtureHelperWalk()
    ensures Walk(Fixture().children[1], AllKinds) == [(Def, Entry("helper", 5, 6, ""))]
  {
    var h := Fixture().children[1];
    WalkLeaf(h.children[0], AllKinds);
    WalkLeaf(h.children[1], AllKinds);
    WalkTwo(h, AllKinds);
  }

  /** The walk of the fixture: the class, the qualified method, the bare
      method, then the helper. */
  lemma FixtureWalk()
    ensures Walk(Fixture(), AllKinds)
      == [(Class, Entry("SingletonClass", 1, 3, "")), (Def, Entry("SingletonClass.method", 2, 3, "")),
          (Def, Entry("method", 2, 3, "")), (Def, Entry("helper", 5, 6, ""))]
  {
    FixtureClassWalk();
    FixtureHelperWalk();
    WalkTwo(Fixture(), AllKinds);
  }

  /** With all kinds requested the fixture yields "class": SingletonClass
      (1, 3) and "def": SingletonClass.method (2, 3), method (2, 3),
      helper (5, 6), in that order. */
  lemma FixtureDefinitions()
    ensures MultiMap.AppendAll(map[], Walk(Fixture(), AllKinds))
      == map[Class := [Entry("SingletonClass", 1, 3, "")],
             Def := [Entry("SingletonClass.method", 2, 3, ""), Entry("method", 2, 3, ""), Entry("helper", 5, 6, "")]]
  {
    FixtureWalk();
    AppendFixtureRecords(Entry("SingletonClass", 1, 3, ""), Entry("SingletonClass.method", 2, 3, ""),
                         Entry("method", 2, 3, ""), Entry("helper", 5, 6, ""));
  }

  lemma AppendFixtureRecords(e0: Entry, e1: Entry, e2: Entry, e3: Entry)
    ensures MultiMap.AppendAll(map[], [(Class, e0), (Def, e1), (Def, e2), (Def, e3)])
      == map[Class := [e0], Def := [e1, e2, e3]]
  {
    var rs := [(Class, e0), (Def, e1), (Def, e2), (Def, e3)];
    var m1 := map[Class := [e0]];
    var m2 := m1[Def := [e1]];
    var m3 := m1[Def := [e1, e2]];
    var m4 := m1[Def := [e1, e2, e3]];
    var empty: map<Kind, seq<Entry>> := map[];
    assert MultiMap.Get(empty, Class) + [e0] == [e0];
    assert MultiMap.Append(empty, Class, e0) == m1;
    assert MultiMap.Get(m1, Def) + [e1] == [e1];
    assert MultiMap.Append(m1, Def, e1) == m2;
    assert MultiMap.Get(m2, Def) + [e2] == [e1, e2];
    assert MultiMap.Append(m2, Def, e2) == m3;
    assert MultiMap.Get(m3, Def) + [e3] == [e1, e2, e3];
    assert MultiMap.Append(m3, Def, e3) == m4;
    var none: seq<Record> := [];
    assert rs[1..][1..][1..][1..] == none;
    calc {
      MultiMap.AppendAll(map[], rs);
      MultiMap.AppendAll(m1, rs[1..]);
      MultiMap.AppendAll(m2, rs[1..][1..]);
      MultiMap.AppendAll(m3, rs[1..][1..][1..]);
      MultiMap.AppendAll(m4, none);
    }
  }

  /** Two same-named sibling functions give two separate entries. */
  lemma SameNamedSiblingsKept()
    ensures MultiMap.Select(Walk(Other([FunctionDef("f", 1, None, []), FunctionDef("f", 3, None, [])]), {Def}), Def)
      == [Entry("f", 1, 1, ""), Entry("f", 3, 3, "")]
  {
    var t := Other([FunctionDef("f", 1, None, []), FunctionDef("f", 3, None, [])]);
    WalkLeaf(t.children[0], {Def});
    WalkLeaf(t.children[1], {Def});
    WalkTwo(t, {Def});
    assert Walk(t, {Def}) == [(Def, Entry("f", 1, 1, "")), (Def, Entry("f", 3, 3, ""))];
  }
}
