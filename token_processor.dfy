/** process_file_tokens and tokenize_block (src/duplifinder/token_processor.py):
    one token block per definition of a file, found by `ast.walk`, and every
    unordered pair of blocks compared once; the pairs whose similarity
    reaches the threshold are reported under a single key. */
module TokenProcessor {
  import opened Common
  import opened Strings
  import opened Seqs
  import opened Paths
  import opened AstVisitor
  import opened AstProcessor
  import MultiMap

  // ---------------------------------------------------------------------
  // tokenize_block (lines 19-28).

  /** The token types of Python's tokenize module. */
  datatype TokType = Encoding | Name | Number | Str | Op | Newline | Comment | Nl | Indent | Dedent | EndMarker | ErrorToken

  datatype Token = Token(kind: TokType, text: string)

  /** How `tokenize.tokenize` stops: at the end of the text, by raising
      TokenError (an unterminated bracket or string), or by raising another
      exception such as IndentationError. */
  datatype Ending = Completed | TokenError | OtherError

  /** What `tokenize.tokenize` does on a text: the tokens it yields before
      it stops, and how it stops. */
  datatype Tokenized = Tokenized(tokens: seq<Token>, ending: Ending)

  /** The types tokenize_block leaves out. */
  predicate Dropped(k: TokType) {
    k.Comment? || k.Nl? || k.Indent? || k.Dedent? || k.EndMarker?
  }

  /** The stripped text of every token not of a dropped type, in order. */
  function Normalized(ts: seq<Token>): (r: seq<string>)
    ensures |r| <= |ts|
  {
    if ts == [] then []
    else
      var t := ts[|ts| - 1];
      Normalized(ts[..|ts| - 1]) + (if Dropped(t.kind) then [] else [Strip(t.text)])
  }

  /** tokenize_block: the loop of lines 23-25 over the tokens the tokenizer
      produced. A TokenError ends the loop and keeps what was collected; any
      other exception leaves tokenize_block (None). */
  method TokenizeBlock(stream: Tokenized) returns (r: Option<seq<string>>)
    ensures r.None? <==> stream.ending.OtherError?
    ensures r.Some? ==> r.value == Normalized(stream.tokens)
  {
    var ts := stream.tokens;
    var tokens: seq<string> := [];
    var i := 0;
    assert ts[..0] == [];
    while i < |ts|
      invariant 0 <= i <= |ts|
      invariant tokens == Normalized(ts[..i])
    {
      assert ts[..i + 1][..i] == ts[..i];
      if !Dropped(ts[i].kind) {
        tokens := tokens + [Strip(ts[i].text)];
      }
      i := i + 1;
    }
    assert ts[..i] == ts;
    r := if stream.ending.OtherError? then None else Some(tokens);
  }

  /** Normalizing is compositional: the tokens of a stream are those of its
      first part followed by those of the rest. */
  lemma {:induction false} NormalizedConcat(a: seq<Token>, b: seq<Token>)
    ensures Normalized(a + b) == Normalized(a) + Normalized(b)
  {
    if b != [] {
      var init := b[..|b| - 1];
      NormalizedConcat(a, init);
      assert (a + b)[..|a + b| - 1] == a + init;
    } else {
      assert a + b == a;
    }
  }

  /** When the tokenizer raises after producing a prefix of a stream, the
      result is a prefix of the stream's result. */
  lemma NormalizedPrefix(a: seq<Token>, b: seq<Token>)
    ensures Normalized(a) <= Normalized(a + b)
  {
    NormalizedConcat(a, b);
  }

  /** Each normalized token is the stripped text of a token whose type is
      kept. */
  lemma {:induction false} NormalizedFrom(ts: seq<Token>)
    ensures forall k :: 0 <= k < |Normalized(ts)| ==>
      exists i :: 0 <= i < |ts| && !Dropped(ts[i].kind) && Normalized(ts)[k] == Strip(ts[i].text)
  {
    if ts != [] {
      var init := ts[..|ts| - 1];
      NormalizedFrom(init);
      var last := ts[|ts| - 1];
      assert Normalized(ts) == Normalized(init) + (if Dropped(last.kind) then [] else [Strip(last.text)]);
      forall k | 0 <= k < |Normalized(ts)|
        ensures exists i :: 0 <= i < |ts| && !Dropped(ts[i].kind) && Normalized(ts)[k] == Strip(ts[i].text)
      {
        if k < |Normalized(init)| {
          var i :| 0 <= i < |init| && !Dropped(init[i].kind) && Normalized(init)[k] == Strip(init[i].text);
          assert ts[i] == init[i];
        } else {
          assert ts[|ts| - 1] == last;
          assert !Dropped(last.kind) && Normalized(ts)[k] == Strip(last.text);
        }
      }
    } else {
      assert Normalized(ts) == [];
    }
  }

  /** A stream of dropped tokens only (comments, blank-line NLs, INDENT,
      DEDENT, ENDMARKER) gives no tokens. */
  lemma {:induction false} NormalizedDropped(ts: seq<Token>)
    requires forall i :: 0 <= i < |ts| ==> Dropped(ts[i].kind)
    ensures Normalized(ts) == []
  {
    if ts != [] {
      NormalizedDropped(ts[..|ts| - 1]);
    }
  }

  /** One more token at the end of a stream. */
  lemma NormalizedSnoc(ts: seq<Token>, t: Token)
    ensures Normalized(ts + [t]) == Normalized(ts) + (if Dropped(t.kind) then [] else [Strip(t.text)])
  {
    assert (ts + [t])[..|ts|] == ts;
  }

  /** Every token of a kept type contributes its stripped text. */
  lemma {:induction false} NormalizedKept(ts: seq<Token>)
    ensures forall i :: 0 <= i < |ts| && !Dropped(ts[i].kind) ==> Strip(ts[i].text) in Normalized(ts)
  {
    if ts != [] {
      var init := ts[..|ts| - 1];
      NormalizedKept(init);
      NormalizedSnoc(init, ts[|ts| - 1]);
      assert init + [ts[|ts| - 1]] == ts;
      forall i | 0 <= i < |ts| && !Dropped(ts[i].kind)
        ensures Strip(ts[i].text) in Normalized(ts)
      {
        if i < |init| {
          assert init[i] == ts[i];
        }
      }
    }
  }

  /** What `tokenize.tokenize` yields for "def foo(): pass  # comment":
      the encoding, the seven tokens of the statement, the comment, an empty
      NEWLINE and the end marker. */
  function SampleStream(): seq<Token> {
    [Token(Encoding, "utf-8"), Token(Name, "def"), Token(Name, "foo"), Token(Op, "("), Token(Op, ")"),
     Token(Op, ":"), Token(Name, "pass"), Token(Comment, "# comment"), Token(Newline, ""), Token(EndMarker, "")]
  }

  /** When every kept token's text is shorter than `bound`, so is every
      normalized token. */
  lemma NormalizedShort(ts: seq<Token>, bound: nat)
    requires forall i :: 0 <= i < |ts| && !Dropped(ts[i].kind) ==> |ts[i].text| < bound
    ensures forall k :: 0 <= k < |Normalized(ts)| ==> |Normalized(ts)[k]| < bound
  {
    NormalizedFrom(ts);
  }

  /** A kept token with no whitespace in its text appears as it is. */
  lemma NormalizedKeptAt(ts: seq<Token>, i: nat)
    requires i < |ts| && !Dropped(ts[i].kind)
    requires forall c :: 0 <= c < |ts[i].text| ==> !IsSpace(ts[i].text[c])
    ensures ts[i].text in Normalized(ts)
  {
    NormalizedKept(ts);
    StripUnchanged(ts[i].text);
  }

  /** On that stream, the tokens hold "def" ... */
  lemma SampleKeepsDef(ts: seq<Token>)
    requires ts == SampleStream()
    ensures "def" in Normalized(ts)
  {
    NormalizedKeptAt(ts, 1);
  }

  /** ... and "foo" ... */
  lemma SampleKeepsFoo(ts: seq<Token>)
    requires ts == SampleStream()
    ensures "foo" in Normalized(ts)
  {
    NormalizedKeptAt(ts, 2);
  }

  /** ... and not the comment. */
  lemma SampleDropsComment(ts: seq<Token>)
    requires ts == SampleStream()
    ensures "# comment" !in Normalized(ts)
  {
    NormalizedShort(ts, 9);
  }

  // ---------------------------------------------------------------------
  // ast.walk: the nodes of a tree in breadth-first order.

  /** The pre-orders of a sequence of trees, one after another. */
  function Forest(q: seq<Node>): seq<Node> {
    if q == [] then [] else Forest(q[..|q| - 1]) + Preorder(q[|q| - 1])
  }

  lemma {:induction false} ForestConcat(a: seq<Node>, b: seq<Node>)
    ensures Forest(a + b) == Forest(a) + Forest(b)
  {
    if b != [] {
      ForestConcat(a, b[..|b| - 1]);
      assert (a + b)[..|a + b| - 1] == a + b[..|b| - 1];
    } else {
      assert a + b == a;
    }
  }

  /** The pre-order below a node's first `i` children is their forest. */
  lemma {:induction false} ForestChildren(n: Node, i: nat)
    requires i <= |n.children|
    ensures PreorderChildren(n, i) == Forest(n.children[..i])
  {
    if i > 0 {
      ForestChildren(n, i - 1);
      assert n.children[..i][..i - 1] == n.children[..i - 1];
    }
  }

  /** The forest of a queue: its first tree's root, that root's subtrees,
      then the rest of the queue. */
  lemma ForestCons(q: seq<Node>)
    requires q != []
    ensures Forest(q) == [q[0]] + Forest(q[0].children) + Forest(q[1..])
  {
    var r := q[0];
    assert [r] + q[1..] == q;
    ForestConcat([r], q[1..]);
    assert Forest([r]) == Preorder(r) by { assert [r][..0] == []; }
    ForestChildren(r, |r.children|);
    assert r.children[..|r.children|] == r.children;
  }

  /** `ast.walk` from a queue of nodes: take the first, queue its children
      at the back. */
  function BreadthFirst(q: seq<Node>): seq<Node>
    decreases |Forest(q)|
  {
    if q == [] then []
    else
      ForestCons(q);
      ForestConcat(q[1..], q[0].children);
      [q[0]] + BreadthFirst(q[1..] + q[0].children)
  }

  /** The definition (class, function, async function) nodes among `ns`,
      in order: those the loop of lines 48-55 makes a block for. */
  function DefNodes(ns: seq<Node>): (r: seq<Node>)
    ensures |r| <= |ns|
    ensures forall k :: 0 <= k < |r| ==> !r[k].Other?
  {
    if ns == [] then []
    else DefNodes(ns[..|ns| - 1]) + (if ns[|ns| - 1].Other? then [] else [ns[|ns| - 1]])
  }

  lemma {:induction false} DefNodesConcat(a: seq<Node>, b: seq<Node>)
    ensures DefNodes(a + b) == DefNodes(a) + DefNodes(b)
  {
    if b != [] {
      DefNodesConcat(a, b[..|b| - 1]);
      assert (a + b)[..|a + b| - 1] == a + b[..|b| - 1];
    } else {
      assert a + b == a;
    }
  }

  /** Exactly the definitions are kept: a node is among DefNodes(ns) as
      often as it is among `ns` when it is a definition, and never
      otherwise. */
  lemma {:induction false} DefNodesCount(ns: seq<Node>, n: Node)
    ensures multiset(DefNodes(ns))[n] == if n.Other? then 0 else multiset(ns)[n]
  {
    if ns != [] {
      var init := ns[..|ns| - 1];
      DefNodesCount(init, n);
      assert ns == init + [ns[|ns| - 1]];
    }
  }

  /** Breadth-first order visits the same nodes as pre-order, each as
      often. */
  lemma {:induction false} BreadthFirstPermutes(q: seq<Node>)
    ensures multiset(BreadthFirst(q)) == multiset(Forest(q))
    decreases |Forest(q)|
  {
    if q != [] {
      var rest := q[1..] + q[0].children;
      ForestCons(q);
      ForestConcat(q[1..], q[0].children);
      BreadthFirstPermutes(rest);
      assert BreadthFirst(q) == [q[0]] + BreadthFirst(rest);
    }
  }

  /** `ast.walk(tree)` reaches every node of the tree once, and so every
      definition of the tree once. */
  lemma WalkReachesAll(tree: Node)
    ensures multiset(BreadthFirst([tree])) == multiset(Preorder(tree))
    ensures multiset(DefNodes(BreadthFirst([tree]))) == multiset(DefNodes(Preorder(tree)))
  {
    BreadthFirstPermutes([tree]);
    assert [tree][..0] == [];
    assert Forest([tree]) == Preorder(tree);
    var walk := BreadthFirst([tree]);
    forall n ensures multiset(DefNodes(walk))[n] == multiset(DefNodes(Preorder(tree)))[n] {
      DefNodesCount(walk, n);
      DefNodesCount(Preorder(tree), n);
    }
  }

  // ---------------------------------------------------------------------
  // The blocks of a file (lines 47-55).

  /** One block: its "lineno:end" span and its normalized tokens. */
  datatype Block = Block(span: string, tokens: seq<string>)

  /** f"{node.lineno}:{end}". */
  function Label(n: Node): string
    requires !n.Other?
  {
    NatStr(n.lineno) + ":" + NatStr(End(n))
  }

  /** A label reads back as the definition's first and last line. */
  lemma LabelParts(n: Node)
    requires !n.Other?
    ensures Split(Label(n), ':') == [NatStr(n.lineno), NatStr(End(n))]
    ensures DigitsValue(NatStr(n.lineno)) == n.lineno && DigitsValue(NatStr(End(n))) == End(n)
  {
    var a, b := NatStr(n.lineno), NatStr(End(n));
    assert ':' !in a && ':' !in b by {
      assert forall i :: 0 <= i < |a| ==> a[i] != ':';
      assert forall i :: 0 <= i < |b| ==> b[i] != ':';
    }
    SplitAtFirst(a, b, ':');
    SplitNoSeparator(b, ':');
    NatStrRoundTrip(n.lineno);
    NatStrRoundTrip(End(n));
  }

  /** `'\n'.join(lines[node.lineno - 1:end])`. */
  function BlockText(lines: seq<string>, n: Node): string
    requires !n.Other?
  {
    Join(Slice(lines, n.lineno - 1, End(n)), "\n")
  }

  /** The blocks for the nodes `ns` in order, one per definition, each
      tokenized with `tokenize`; None once a block's tokenization raised
      something other than TokenError. */
  function BlocksOf(ns: seq<Node>, lines: seq<string>, tokenize: string -> Tokenized): Option<seq<Block>> {
    if ns == [] then Some([])
    else
      var n := ns[|ns| - 1];
      var init := BlocksOf(ns[..|ns| - 1], lines, tokenize);
      if init.None? || n.Other? then init
      else
        var stream := tokenize(BlockText(lines, n));
        if stream.ending.OtherError? then None
        else Some(init.value + [Block(Label(n), Normalized(stream.tokens))])
  }

  /** The block made for a definition node. */
  function BlockFor(n: Node, lines: seq<string>, tokenize: string -> Tokenized): Block
    requires !n.Other?
  {
    Block(Label(n), Normalized(tokenize(BlockText(lines, n)).tokens))
  }

  /** Whether tokenizing the text of every definition among `ns` ends
      without an exception other than TokenError. */
  predicate Tokenizes(ns: seq<Node>, lines: seq<string>, tokenize: string -> Tokenized) {
    forall k :: 0 <= k < |DefNodes(ns)| ==> !tokenize(BlockText(lines, DefNodes(ns)[k])).ending.OtherError?
  }

  /** The blocks exist exactly when every definition tokenizes, and then
      there is one block per definition, in the order the nodes come: the
      label of its lines and the normalized tokens of its text. */
  lemma {:induction false} BlocksOfExact(ns: seq<Node>, lines: seq<string>, tokenize: string -> Tokenized)
    ensures BlocksOf(ns, lines, tokenize).Some? <==> Tokenizes(ns, lines, tokenize)
    ensures BlocksOf(ns, lines, tokenize).Some? ==>
      var bs := BlocksOf(ns, lines, tokenize).value;
      |bs| == |DefNodes(ns)| && forall k :: 0 <= k < |bs| ==> bs[k] == BlockFor(DefNodes(ns)[k], lines, tokenize)
  {
    if ns != [] {
      var init := ns[..|ns| - 1];
      var n := ns[|ns| - 1];
      BlocksOfExact(init, lines, tokenize);
      var ds := DefNodes(init);
      assert DefNodes(ns) == ds + (if n.Other? then [] else [n]);
      assert forall k :: 0 <= k < |ds| ==> DefNodes(ns)[k] == ds[k];
      if !n.Other? {
        assert DefNodes(ns)[|ds|] == n;
        if BlocksOf(init, lines, tokenize).Some? && tokenize(BlockText(lines, n)).ending.OtherError? {
          assert !Tokenizes(ns, lines, tokenize);
        }
      }
    } else {
      assert DefNodes(ns) == [];
    }
  }

  /** CollectBlocks: the loop of lines 48-55 over the nodes of the walk. */
  method CollectBlocks(ns: seq<Node>, lines: seq<string>, tokenize: string -> Tokenized) returns (r: Option<seq<Block>>)
    ensures r == BlocksOf(ns, lines, tokenize)
  {
    var blocks: seq<Block> := [];
    var i := 0;
    while i < |ns|
      invariant 0 <= i <= |ns|
      invariant BlocksOf(ns[..i], lines, tokenize) == Some(blocks)
    {
      var n := ns[i];
      assert ns[..i + 1][..i] == ns[..i];
      if !n.Other? {
        var tokens := TokenizeBlock(tokenize(BlockText(lines, n)));
        if tokens.None? {
          assert ns[..i + 1] <= ns;
          BlocksOfFailureSticks(ns, lines, tokenize, i + 1);
          return None;
        }
        blocks := blocks + [Block(Label(n), tokens.value)];
      }
      i := i + 1;
    }
    assert ns[..i] == ns;
    r := Some(blocks);
  }

  /** Once a prefix of the nodes has no blocks, neither have all of them. */
  lemma {:induction false} BlocksOfFailureSticks(ns: seq<Node>, lines: seq<string>, tokenize: string -> Tokenized, j: nat)
    requires j <= |ns|
    requires BlocksOf(ns[..j], lines, tokenize).None?
    ensures BlocksOf(ns, lines, tokenize).None?
    decreases |ns| - j
  {
    if j < |ns| {
      assert ns[..j + 1][..j] == ns[..j];
      BlocksOfFailureSticks(ns, lines, tokenize, j + 1);
    } else {
      assert ns[..j] == ns;
    }
  }

  // ---------------------------------------------------------------------
  // The pairs compared (lines 59-60): block i against every later block j.

  /** `(i, j) for j in range(i + 1, n)`. */
  function Row(n: nat, i: nat): (r: seq<(nat, nat)>)
    requires i < n
    ensures |r| == n - i - 1
    ensures forall k :: 0 <= k < |r| ==> r[k] == (i, i + 1 + k)
  {
    seq(n - i - 1, k requires 0 <= k < n - i - 1 => (i, i + 1 + k))
  }

  /** The rows of the first `i` blocks, one after another. */
  function PairsBefore(n: nat, i: nat): seq<(nat, nat)>
    requires i <= n
  {
    if i == 0 then [] else PairsBefore(n, i - 1) + Row(n, i - 1)
  }

  /** Every pair of the two nested loops over `n` blocks, in loop order. */
  function Pairs(n: nat): seq<(nat, nat)> {
    PairsBefore(n, n)
  }

  /** `(i, j)` comes strictly before `(i', j')` in loop order. */
  predicate LoopBefore(p: (nat, nat), q: (nat, nat)) {
    p.0 < q.0 || (p.0 == q.0 && p.1 < q.1)
  }

  /** The first `i` rows hold exactly the pairs `a < b < n` with `a < i`. */
  lemma {:induction false} PairsBeforeMembers(n: nat, i: nat)
    requires i <= n
    ensures forall a: nat, b: nat :: (a, b) in PairsBefore(n, i) <==> a < i && a < b < n
  {
    if i > 0 {
      PairsBeforeMembers(n, i - 1);
      var row := Row(n, i - 1);
      forall a: nat, b: nat
        ensures (a, b) in PairsBefore(n, i) <==> a < i && a < b < n
      {
        if a == i - 1 && a < b < n {
          assert row[b - i] == (a, b);
        }
      }
    }
  }

  /** The first `i` rows are in strictly increasing loop order. */
  lemma {:induction false} PairsBeforeOrdered(n: nat, i: nat)
    requires i <= n
    ensures forall x, y :: 0 <= x < y < |PairsBefore(n, i)| ==> LoopBefore(PairsBefore(n, i)[x], PairsBefore(n, i)[y])
  {
    if i > 0 {
      PairsBeforeOrdered(n, i - 1);
      PairsBeforeMembers(n, i - 1);
      var prev := PairsBefore(n, i - 1);
      var row := Row(n, i - 1);
      var ps := prev + row;
      forall x, y | 0 <= x < y < |ps|
        ensures LoopBefore(ps[x], ps[y])
      {
        if x < |prev| && y >= |prev| {
          assert ps[x] in prev;
          assert ps[y] == row[y - |prev|];
        }
      }
    }
  }

  /** The first `i` rows hold i * (2n - i - 1) / 2 pairs. */
  lemma {:induction false} PairsBeforeLength(n: nat, i: nat)
    requires i <= n
    ensures 2 * |PairsBefore(n, i)| == i * (2 * n - i - 1)
  {
    if i > 0 {
      PairsBeforeLength(n, i - 1);
      assert 2 * |PairsBefore(n, i)| == (i - 1) * (2 * n - i) + 2 * (n - i);
      assert (i - 1) * (2 * n - i) == i * (2 * n - i) - (2 * n - i);
      assert i * (2 * n - i - 1) == i * (2 * n - i) - i;
    }
  }

  /** Every unordered pair of distinct blocks is compared exactly once, as
      (earlier, later), in loop order: n * (n - 1) / 2 comparisons. */
  lemma PairsExact(n: nat)
    ensures forall a: nat, b: nat :: (a, b) in Pairs(n) <==> a < b < n
    ensures forall x, y :: 0 <= x < y < |Pairs(n)| ==> LoopBefore(Pairs(n)[x], Pairs(n)[y])
    ensures 2 * |Pairs(n)| == n * (n - 1)
  {
    PairsBeforeMembers(n, n);
    PairsBeforeOrdered(n, n);
    PairsBeforeLength(n, n);
  }

  /** No pair is compared twice. */
  lemma PairsDistinct(n: nat)
    ensures forall x, y :: 0 <= x < y < |Pairs(n)| ==> Pairs(n)[x] != Pairs(n)[y]
  {
    PairsExact(n);
  }

  // ---------------------------------------------------------------------
  // The similarities reported (lines 58-65).

  /** `(f"{path}:{loc1}", f"{path}:{loc2}", ratio)`. */
  datatype Similar = Similar(loc1: string, loc2: string, ratio: real)

  /** The tuple recorded for the pair `p` of `blocks`; `ratio` stands for
      `difflib.SequenceMatcher(None, tokens1, tokens2).ratio()`. */
  function Compared(path: string, blocks: seq<Block>, p: (nat, nat), ratio: (seq<string>, seq<string>) -> real): Similar
    requires p.0 < |blocks| && p.1 < |blocks|
  {
    Similar(path + ":" + blocks[p.0].span, path + ":" + blocks[p.1].span, ratio(blocks[p.0].tokens, blocks[p.1].tokens))
  }

  /** Whether the pair `p` of `blocks` is reported: its ratio reaches the
      threshold. */
  predicate Reaches(blocks: seq<Block>, p: (nat, nat), ratio: (seq<string>, seq<string>) -> real, threshold: real)
    requires p.0 < |blocks| && p.1 < |blocks|
  {
    ratio(blocks[p.0].tokens, blocks[p.1].tokens) >= threshold
  }

  predicate InRange(ps: seq<(nat, nat)>, m: nat) {
    forall k :: 0 <= k < |ps| ==> ps[k].0 < m && ps[k].1 < m
  }

  /** The tuples recorded while comparing the pairs `ps` in order. */
  function Reported(path: string, blocks: seq<Block>, ps: seq<(nat, nat)>, ratio: (seq<string>, seq<string>) -> real, threshold: real): seq<Similar>
    requires InRange(ps, |blocks|)
  {
    if ps == [] then []
    else
      var p := ps[|ps| - 1];
      Reported(path, blocks, ps[..|ps| - 1], ratio, threshold)
        + (if Reaches(blocks, p, ratio, threshold) then [Compared(path, blocks, p, ratio)] else [])
  }

  lemma {:induction false} ReportedConcat(path: string, blocks: seq<Block>, a: seq<(nat, nat)>, b: seq<(nat, nat)>, ratio: (seq<string>, seq<string>) -> real, threshold: real)
    requires InRange(a, |blocks|) && InRange(b, |blocks|)
    ensures InRange(a + b, |blocks|)
    ensures Reported(path, blocks, a + b, ratio, threshold) == Reported(path, blocks, a, ratio, threshold) + Reported(path, blocks, b, ratio, threshold)
  {
    if b != [] {
      var init := b[..|b| - 1];
      ReportedConcat(path, blocks, a, init, ratio, threshold);
      assert (a + b)[..|a + b| - 1] == a + init;
    } else {
      assert a + b == a;
    }
  }

  /** The recorded tuples are, in order, those of the pairs whose ratio
      reaches the threshold: each comes from such a pair, and each such pair
      gives one. */
  lemma {:induction false} ReportedExact(path: string, blocks: seq<Block>, ps: seq<(nat, nat)>, ratio: (seq<string>, seq<string>) -> real, threshold: real)
    requires InRange(ps, |blocks|)
    ensures |Reported(path, blocks, ps, ratio, threshold)| <= |ps|
    ensures forall e :: e in Reported(path, blocks, ps, ratio, threshold) ==>
      exists k :: 0 <= k < |ps| && Reaches(blocks, ps[k], ratio, threshold) && e == Compared(path, blocks, ps[k], ratio)
    ensures forall k :: 0 <= k < |ps| && Reaches(blocks, ps[k], ratio, threshold) ==>
      Compared(path, blocks, ps[k], ratio) in Reported(path, blocks, ps, ratio, threshold)
  {
    if ps != [] {
      var init := ps[..|ps| - 1];
      var p := ps[|ps| - 1];
      ReportedExact(path, blocks, init, ratio, threshold);
      var r := Reported(path, blocks, ps, ratio, threshold);
      var ri := Reported(path, blocks, init, ratio, threshold);
      assert r == ri + (if Reaches(blocks, p, ratio, threshold) then [Compared(path, blocks, p, ratio)] else []);
      forall e | e in r
        ensures exists k :: 0 <= k < |ps| && Reaches(blocks, ps[k], ratio, threshold) && e == Compared(path, blocks, ps[k], ratio)
      {
        if e in ri {
          var k :| 0 <= k < |init| && Reaches(blocks, init[k], ratio, threshold) && e == Compared(path, blocks, init[k], ratio);
          assert ps[k] == init[k];
        } else {
          assert Reaches(blocks, ps[|ps| - 1], ratio, threshold) && e == Compared(path, blocks, ps[|ps| - 1], ratio);
        }
      }
      forall k | 0 <= k < |ps| && Reaches(blocks, ps[k], ratio, threshold)
        ensures Compared(path, blocks, ps[k], ratio) in r
      {
        if k < |init| {
          assert ps[k] == init[k];
        }
      }
    } else {
      assert Reported(path, blocks, ps, ratio, threshold) == [];
    }
  }

  /** `int(x)`: truncation toward zero. */
  function Trunc(x: real): (r: int)
    ensures x >= 0.0 ==> r as real <= x < r as real + 1.0
    ensures x < 0.0 ==> r as real - 1.0 < x <= r as real
  {
    if x >= 0.0 then x.Floor else -((-x).Floor)
  }

  /** f"token similarity >{int(threshold * 100)}%". */
  function Key(threshold: real): (k: string)
    ensures |k| > 19 && k[..18] == "token similarity >" && k[|k| - 1] == '%'
    ensures threshold >= 0.0 ==> forall i :: 18 <= i < |k| - 1 ==> '0' <= k[i] <= '9'
  {
    "token similarity >" + IntStr(Trunc(threshold * 100.0)) + "%"
  }

  /** Two thresholds share a key exactly when they truncate to the same
      whole percentage. */
  lemma KeyInjective(a: real, b: real)
    ensures Key(a) == Key(b) <==> Trunc(a * 100.0) == Trunc(b * 100.0)
  {
    if Key(a) == Key(b) {
      var sa := IntStr(Trunc(a * 100.0));
      var sb := IntStr(Trunc(b * 100.0));
      assert sa == Key(a)[18..|Key(a)| - 1];
      assert sb == Key(b)[18..|Key(b)| - 1];
      IntStrInjective(Trunc(a * 100.0), Trunc(b * 100.0));
    }
  }

  /** The key for the default threshold of 0.8 and for 0.5. */
  lemma KeyExamples()
    ensures Key(0.8) == "token similarity >80%"
    ensures Key(0.5) == "token similarity >50%"
  {
    assert Trunc(80.0) == 80 && Trunc(50.0) == 50;
    assert NatStr(80) == NatStr(8) + [DigitChar(0)];
    assert NatStr(50) == NatStr(5) + [DigitChar(0)];
  }

  /** The defaultdict after appending the tuples `es` under one key: no key
      when nothing was appended. */
  function Bucket(key: string, es: seq<Similar>): (r: map<string, seq<Similar>>)
    ensures r.Keys <= {key}
    ensures key in r <==> es != []
  {
    if es == [] then map[] else map[key := es]
  }

  lemma BucketAppend(key: string, es: seq<Similar>, e: Similar)
    ensures MultiMap.Append(Bucket(key, es), key, e) == Bucket(key, es + [e])
  {
    var m := MultiMap.Append(Bucket(key, es), key, e);
    assert m.Keys == {key};
    assert m[key] == es + [e];
  }

  // ---------------------------------------------------------------------
  // process_file_tokens (lines 31-73).

  /** The fields of Config the processor reads. */
  datatype TokenConfig = TokenConfig(threshold: real, excludePatterns: seq<string>)

  /** (similarities, skipped file or None, total_lines). */
  datatype TokenResult = TokenResult(similarities: map<string, seq<Similar>>, skipped: Option<string>, totalLines: nat)

  /** The blocks of a parsed file, taken in `ast.walk` order. */
  function FileBlocks(tree: Node, lines: seq<string>, tokenize: string -> Tokenized): Option<seq<Block>> {
    BlocksOf(BreadthFirst([tree]), lines, tokenize)
  }

  /** What process_file_tokens returns for a file: `({}, path, 0)` when it is
      excluded, cannot be read or parsed, or a block's tokenization raises;
      otherwise the reported pairs under the threshold's key, no skip, and
      the line count. */
  function ProcessTokens(file: SourceFile, cfg: TokenConfig, glob: (string, string) -> bool,
                         tokenize: string -> Tokenized, ratio: (seq<string>, seq<string>) -> real): (r: TokenResult)
    ensures ExcludedFile(file.name, cfg.excludePatterns, glob) ==> r.skipped == Some(file.path)
    ensures r.skipped.Some? ==> r.skipped == Some(file.path) && r.similarities == map[] && r.totalLines == 0
    ensures r.skipped.None? ==> file.content.Read? && r.totalLines == |file.content.lines| && r.similarities.Keys <= {Key(cfg.threshold)}
  {
    if ExcludedFile(file.name, cfg.excludePatterns, glob) then TokenResult(map[], Some(file.path), 0)
    else if file.content.ReadFailed? || file.content.tree.None? then TokenResult(map[], Some(file.path), 0)
    else match FileBlocks(file.content.tree.value, file.content.lines, tokenize)
      case None => TokenResult(map[], Some(file.path), 0)
      case Some(blocks) =>
        PairsExact(|blocks|);
        TokenResult(Bucket(Key(cfg.threshold), Reported(file.path, blocks, Pairs(|blocks|), ratio, cfg.threshold)),
                    None, |file.content.lines|)
  }

  /** One more column of row `i`. */
  lemma RowStep(path: string, blocks: seq<Block>, i: nat, j: nat, ratio: (seq<string>, seq<string>) -> real, threshold: real)
    requires i < j < |blocks|
    ensures InRange(Row(|blocks|, i), |blocks|)
    ensures Reported(path, blocks, Row(|blocks|, i)[..j - i], ratio, threshold)
      == Reported(path, blocks, Row(|blocks|, i)[..j - i - 1], ratio, threshold)
         + (if Reaches(blocks, (i, j), ratio, threshold) then [Compared(path, blocks, (i, j), ratio)] else [])
  {
    var row := Row(|blocks|, i);
    assert row[..j - i][..j - i - 1] == row[..j - i - 1];
    assert row[j - i - 1] == (i, j);
  }

  /** The bucket after one more column of row `i`. */
  lemma BucketStep(path: string, blocks: seq<Block>, i: nat, j: nat, ratio: (seq<string>, seq<string>) -> real, threshold: real,
                   before: seq<Similar>)
    requires i < j < |blocks|
    ensures var row := Row(|blocks|, i);
      var prev := Bucket(Key(threshold), before + Reported(path, blocks, row[..j - i - 1], ratio, threshold));
      Bucket(Key(threshold), before + Reported(path, blocks, row[..j - i], ratio, threshold))
        == if Reaches(blocks, (i, j), ratio, threshold)
           then MultiMap.Append(prev, Key(threshold), Compared(path, blocks, (i, j), ratio))
           else prev
  {
    var row := Row(|blocks|, i);
    var done := Reported(path, blocks, row[..j - i - 1], ratio, threshold);
    var hit := if Reaches(blocks, (i, j), ratio, threshold) then [Compared(path, blocks, (i, j), ratio)] else [];
    assert before + Reported(path, blocks, row[..j - i], ratio, threshold) == (before + done) + hit by {
      RowStep(path, blocks, i, j, ratio, threshold);
    }
    if hit != [] {
      BucketAppend(Key(threshold), before + done, hit[0]);
    } else {
      assert (before + done) + hit == before + done;
    }
  }

  /** The inner loop (lines 60-65) for block `i`, adding to the tuples
      `before` already recorded. */
  method CompareRow(path: string, blocks: seq<Block>, i: nat, ratio: (seq<string>, seq<string>) -> real, threshold: real,
                    ghost before: seq<Similar>, sims: map<string, seq<Similar>>)
    returns (r: map<string, seq<Similar>>)
    requires i < |blocks|
    requires sims == Bucket(Key(threshold), before)
    ensures r == Bucket(Key(threshold), before + Reported(path, blocks, Row(|blocks|, i), ratio, threshold))
  {
    ghost var row := Row(|blocks|, i);
    r := sims;
    var j := i + 1;
    assert row[..0] == [] && before + [] == before;
    while j < |blocks|
      invariant i + 1 <= j <= |blocks|
      invariant r == Bucket(Key(threshold), before + Reported(path, blocks, row[..j - i - 1], ratio, threshold))
    {
      BucketStep(path, blocks, i, j, ratio, threshold, before);
      var ratioValue := ratio(blocks[i].tokens, blocks[j].tokens);
      if ratioValue >= threshold {
        r := MultiMap.Append(r, Key(threshold), Similar(path + ":" + blocks[i].span, path + ":" + blocks[j].span, ratioValue));
      }
      j := j + 1;
    }
    assert row[..j - i - 1] == row;
  }

  /** The outer loop (lines 59-65): every block against every later one. */
  method CompareBlocks(path: string, blocks: seq<Block>, ratio: (seq<string>, seq<string>) -> real, threshold: real)
    returns (r: map<string, seq<Similar>>)
    ensures InRange(Pairs(|blocks|), |blocks|)
    ensures r == Bucket(Key(threshold), Reported(path, blocks, Pairs(|blocks|), ratio, threshold))
  {
    var n := |blocks|;
    r := map[];
    var i := 0;
    while i < n
      invariant 0 <= i <= n
      invariant InRange(PairsBefore(n, i), n)
      invariant r == Bucket(Key(threshold), Reported(path, blocks, PairsBefore(n, i), ratio, threshold))
    {
      PairsBeforeMembers(n, i + 1);
      ReportedConcat(path, blocks, PairsBefore(n, i), Row(n, i), ratio, threshold);
      r := CompareRow(path, blocks, i, ratio, threshold, Reported(path, blocks, PairsBefore(n, i), ratio, threshold), r);
      i := i + 1;
    }
  }

  /** process_file_tokens. */
  method ProcessFileTokens(file: SourceFile, cfg: TokenConfig, glob: (string, string) -> bool,
                           tokenize: string -> Tokenized, ratio: (seq<string>, seq<string>) -> real)
    returns (r: TokenResult)
    ensures r == ProcessTokens(file, cfg, glob, tokenize, ratio)
  {
    var i := 0;
    while i < |cfg.excludePatterns|
      invariant 0 <= i <= |cfg.excludePatterns|
      invariant forall j :: 0 <= j < i ==> !glob(file.name, cfg.excludePatterns[j])
    {
      if glob(file.name, cfg.excludePatterns[i]) {
        return TokenResult(map[], Some(file.path), 0);
      }
      i := i + 1;
    }
    if file.content.ReadFailed? || file.content.tree.None? {
      return TokenResult(map[], Some(file.path), 0);
    }
    var lines := file.content.lines;
    var blocks := CollectBlocks(BreadthFirst([file.content.tree.value]), lines, tokenize);
    if blocks.None? {
      return TokenResult(map[], Some(file.path), 0);
    }
    var similarities := CompareBlocks(file.path, blocks.value, ratio, cfg.threshold);
    r := TokenResult(similarities, None, |lines|);
  }

  // ---------------------------------------------------------------------
  // What process_file_tokens promises.

  /** A parsed file has blocks exactly when every definition tokenizes; then
      there is one block per definition of the tree, made in `ast.walk`
      order, and the definitions blocked are those of the tree, each once. */
  lemma FileBlocksExact(tree: Node, lines: seq<string>, tokenize: string -> Tokenized)
    ensures var walk := BreadthFirst([tree]);
      && (FileBlocks(tree, lines, tokenize).Some? <==> Tokenizes(walk, lines, tokenize))
      && multiset(DefNodes(walk)) == multiset(DefNodes(Preorder(tree)))
      && (FileBlocks(tree, lines, tokenize).Some? ==>
            var bs := FileBlocks(tree, lines, tokenize).value;
            && |bs| == |DefNodes(walk)| == |DefNodes(Preorder(tree))|
            && forall k :: 0 <= k < |bs| ==> bs[k] == BlockFor(DefNodes(walk)[k], lines, tokenize))
  {
    var walk := BreadthFirst([tree]);
    BlocksOfExact(walk, lines, tokenize);
    WalkReachesAll(tree);
    assert |multiset(DefNodes(walk))| == |multiset(DefNodes(Preorder(tree)))|;
  }

  /** The outcome of a file: skipped, with nothing and no lines, exactly
      when it is excluded, unreadable, unparsable or a block fails to
      tokenize; otherwise its line count and at most the threshold's key. */
  lemma TokenOutcome(file: SourceFile, cfg: TokenConfig, glob: (string, string) -> bool,
                     tokenize: string -> Tokenized, ratio: (seq<string>, seq<string>) -> real)
    ensures var r := ProcessTokens(file, cfg, glob, tokenize, ratio);
      && (r.skipped.None? <==>
            !ExcludedFile(file.name, cfg.excludePatterns, glob) && file.content.Read? && file.content.tree.Some?
            && Tokenizes(BreadthFirst([file.content.tree.value]), file.content.lines, tokenize))
      && (r.skipped.Some? ==> r == TokenResult(map[], Some(file.path), 0))
      && (r.skipped.None? ==> r.totalLines == |file.content.lines| && r.similarities.Keys <= {Key(cfg.threshold)})
  {
    if file.content.Read? && file.content.tree.Some? {
      FileBlocksExact(file.content.tree.value, file.content.lines, tokenize);
    }
  }

  /** The tuples recorded over all pairs: one for each pair of blocks
      `a < b` whose ratio reaches the threshold and nothing else, at most
      n * (n - 1) / 2 of them. */
  lemma PairsReported(path: string, blocks: seq<Block>, ratio: (seq<string>, seq<string>) -> real, threshold: real)
    ensures InRange(Pairs(|blocks|), |blocks|)
    ensures var es := Reported(path, blocks, Pairs(|blocks|), ratio, threshold);
      && (forall a: nat, b: nat :: a < b < |blocks| && Reaches(blocks, (a, b), ratio, threshold) ==>
            Compared(path, blocks, (a, b), ratio) in es)
      && (forall e :: e in es ==>
            exists a: nat, b: nat :: a < b < |blocks| && Reaches(blocks, (a, b), ratio, threshold)
              && e == Compared(path, blocks, (a, b), ratio))
      && 2 * |es| <= |blocks| * (|blocks| - 1)
  {
    var n := |blocks|;
    var ps := Pairs(n);
    PairsExact(n);
    var es := Reported(path, blocks, ps, ratio, threshold);
    ReportedExact(path, blocks, ps, ratio, threshold);
    forall a: nat, b: nat | a < b < n && Reaches(blocks, (a, b), ratio, threshold)
      ensures Compared(path, blocks, (a, b), ratio) in es
    {
      var k :| 0 <= k < |ps| && ps[k] == (a, b);
    }
    forall e | e in es
      ensures exists a: nat, b: nat :: a < b < n && Reaches(blocks, (a, b), ratio, threshold)
                && e == Compared(path, blocks, (a, b), ratio)
    {
      var k :| 0 <= k < |ps| && Reaches(blocks, ps[k], ratio, threshold) && e == Compared(path, blocks, ps[k], ratio);
      assert ps[k] in ps;
    }
  }

  /** On success, the list under the threshold's key holds exactly the
      tuples of the pairs of blocks `a < b` whose ratio reaches the
      threshold, at most n * (n - 1) / 2 of them, and the key is present
      exactly when such a pair exists. */
  lemma TokenSimilaritiesExact(file: SourceFile, cfg: TokenConfig, glob: (string, string) -> bool,
                               tokenize: string -> Tokenized, ratio: (seq<string>, seq<string>) -> real, blocks: seq<Block>)
    requires !ExcludedFile(file.name, cfg.excludePatterns, glob) && file.content.Read? && file.content.tree.Some?
    requires FileBlocks(file.content.tree.value, file.content.lines, tokenize) == Some(blocks)
    ensures var sims := ProcessTokens(file, cfg, glob, tokenize, ratio).similarities;
      var found := MultiMap.Get(sims, Key(cfg.threshold));
      && (Key(cfg.threshold) in sims <==>
            exists a: nat, b: nat :: a < b < |blocks| && Reaches(blocks, (a, b), ratio, cfg.threshold))
      && (forall a: nat, b: nat :: a < b < |blocks| && Reaches(blocks, (a, b), ratio, cfg.threshold) ==>
            Compared(file.path, blocks, (a, b), ratio) in found)
      && (forall e :: e in found ==>
            exists a: nat, b: nat :: a < b < |blocks| && Reaches(blocks, (a, b), ratio, cfg.threshold)
              && e == Compared(file.path, blocks, (a, b), ratio))
      && 2 * |found| <= |blocks| * (|blocks| - 1)
  {
    PairsReported(file.path, blocks, ratio, cfg.threshold);
    var es := Reported(file.path, blocks, Pairs(|blocks|), ratio, cfg.threshold);
    var sims := ProcessTokens(file, cfg, glob, tokenize, ratio).similarities;
    assert sims == Bucket(Key(cfg.threshold), es);
    assert MultiMap.Get(sims, Key(cfg.threshold)) == es;
    if es != [] {
      assert es[0] in es;
    }
  }

  /** Two blocks whose ratio reaches 0.5 are reported under
      "token similarity >50%". */
  lemma TwoSimilarBlocks(path: string, b0: Block, b1: Block, ratio: (seq<string>, seq<string>) -> real)
    requires ratio(b0.tokens, b1.tokens) >= 0.5
    ensures InRange(Pairs(2), 2)
    ensures "token similarity >50%" in Bucket(Key(0.5), Reported(path, [b0, b1], Pairs(2), ratio, 0.5))
  {
    PairsReported(path, [b0, b1], ratio, 0.5);
    assert Reaches([b0, b1], (0, 1), ratio, 0.5);
    KeyExamples();
  }
}
