/** Python's slicing, and small facts about sequence concatenation stated
    over arbitrary element types so that they are proved once, away from
    the definitions they are later applied to. */
module Seqs {

  function Min(a: int, b: int): int {
    if a <= b then a else b
  }

  /** `xs[lo:hi]` for non-negative bounds, with Python's clamping: empty
      when `lo` is past the end or `hi <= lo`, cut at the end otherwise. */
  function Slice<T>(xs: seq<T>, lo: nat, hi: nat): (r: seq<T>)
    ensures |r| == if lo < |xs| && lo < hi then Min(hi, |xs|) - lo else 0
    ensures forall i :: 0 <= i < |r| ==> r[i] == xs[lo + i]
  {
    if lo < |xs| && lo < hi then xs[lo..Min(hi, |xs|)] else []
  }

  lemma PrefixExtend<T>(a: seq<T>, b: seq<T>, c: seq<T>)
    requires a <= b
    ensures a <= b + c
  {
    assert (b + c)[..|b|] == b;
  }

  /** Re-associating a split: x = p + y and y = q + r give x = (p + q) + r. */
  lemma Reassociate<T>(x: seq<T>, p: seq<T>, y: seq<T>, q: seq<T>, r: seq<T>)
    requires x == p + y && y == q + r
    ensures x == (p + q) + r
  {
  }

  lemma DropEmpty<T>(w: seq<T>, h: seq<T>, z: seq<T>)
    requires w == h + z && z == []
    ensures w == h
  {
    assert h + z == h;
  }

  lemma OneAfterEmpty<T>(w: seq<T>, h: seq<T>, wc: seq<T>, w0: seq<T>, a: seq<T>)
    requires w == h + wc && wc == w0 + a && w0 == []
    ensures w == h + a
  {
    assert w0 + a == a;
  }

  lemma TwoAfterEmpty<T>(w: seq<T>, h: seq<T>, wc2: seq<T>, wc1: seq<T>, w0: seq<T>, a: seq<T>, b: seq<T>)
    requires w == h + wc2 && wc2 == wc1 + b && wc1 == w0 + a && w0 == []
    ensures w == h + a + b
  {
    assert w0 + a == a;
  }
}
