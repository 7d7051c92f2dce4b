/** A `defaultdict(list)` seen as a value: a map from keys to lists, where
    `d[k].append(v)` creates the key on first use. Every accumulator of the
    core (visitor definitions, text matches, similarity buckets) is one. */
module MultiMap {

  /** `d[k]` on a defaultdict, without the side effect of creating the key. */
  function Get<K(==, !new), V>(m: map<K, seq<V>>, k: K): seq<V> {
    if k in m then m[k] else []
  }

  /** `d[k].append(v)`. */
  function Append<K(==, !new), V>(m: map<K, seq<V>>, k: K, v: V): (r: map<K, seq<V>>)
    ensures r.Keys == m.Keys + {k}
    ensures Get(r, k) == Get(m, k) + [v]
    ensures forall j :: j != k ==> Get(r, j) == Get(m, j)
  {
    m[k := Get(m, k) + [v]]
  }

  /** Appending a sequence of (key, value) records in order. */
  function AppendAll<K(==, !new), V>(m: map<K, seq<V>>, rs: seq<(K, V)>): map<K, seq<V>>
    decreases |rs|
  {
    if rs == [] then m else AppendAll(Append(m, rs[0].0, rs[0].1), rs[1..])
  }

  /** The values recorded under key `k`, in record order. */
  function Select<K(==, !new), V>(rs: seq<(K, V)>, k: K): (r: seq<V>)
    ensures |r| <= |rs|
  {
    if rs == [] then []
    else (if rs[0].0 == k then [rs[0].1] else []) + Select(rs[1..], k)
  }

  function KeysOf<K(==, !new), V>(rs: seq<(K, V)>): (r: set<K>)
    ensures forall i :: 0 <= i < |rs| ==> rs[i].0 in r
    ensures forall k :: k in r ==> exists i :: 0 <= i < |rs| && rs[i].0 == k
  {
    set i | 0 <= i < |rs| :: rs[i].0
  }

  lemma {:induction false} SelectConcat<K(!new), V>(a: seq<(K, V)>, b: seq<(K, V)>, k: K)
    ensures Select(a + b, k) == Select(a, k) + Select(b, k)
  {
    if a != [] {
      assert (a + b)[1..] == a[1..] + b;
      SelectConcat(a[1..], b, k);
    } else {
      assert a + b == b;
    }
  }

  /** A key has values in the records exactly when it occurs among them. */
  lemma {:induction false} SelectEmpty<K(!new), V>(rs: seq<(K, V)>, k: K)
    ensures Select(rs, k) == [] <==> k !in KeysOf(rs)
  {
    if rs != [] {
      SelectEmpty(rs[1..], k);
      assert KeysOf(rs) == {rs[0].0} + KeysOf(rs[1..]) by {
        forall j | j in KeysOf(rs) ensures j in {rs[0].0} + KeysOf(rs[1..]) {
          var i :| 0 <= i < |rs| && rs[i].0 == j;
          if i > 0 { assert rs[1..][i - 1].0 == j; }
        }
      }
    }
  }

  /** The fold of appends: each key's list grows by exactly the values the
      records carry for it, in order, and only keys that occur are added. */
  lemma {:induction false} AppendAllGet<K(!new), V>(m: map<K, seq<V>>, rs: seq<(K, V)>, k: K)
    ensures Get(AppendAll(m, rs), k) == Get(m, k) + Select(rs, k)
    decreases |rs|
  {
    if rs != [] {
      AppendAllGet(Append(m, rs[0].0, rs[0].1), rs[1..], k);
    }
  }

  lemma {:induction false} AppendAllKeys<K(!new), V>(m: map<K, seq<V>>, rs: seq<(K, V)>)
    ensures AppendAll(m, rs).Keys == m.Keys + KeysOf(rs)
    decreases |rs|
  {
    if rs != [] {
      AppendAllKeys(Append(m, rs[0].0, rs[0].1), rs[1..]);
      assert KeysOf(rs) == {rs[0].0} + KeysOf(rs[1..]) by {
        forall j | j in KeysOf(rs) ensures j in {rs[0].0} + KeysOf(rs[1..]) {
          var i :| 0 <= i < |rs| && rs[i].0 == j;
          if i > 0 { assert rs[1..][i - 1].0 == j; }
        }
      }
    }
  }

  /** Appending records one after another is appending their concatenation. */
  lemma {:induction false} AppendAllConcat<K(!new), V>(m: map<K, seq<V>>, a: seq<(K, V)>, b: seq<(K, V)>)
    ensures AppendAll(m, a + b) == AppendAll(AppendAll(m, a), b)
    decreases |a|
  {
    if a != [] {
      assert (a + b)[1..] == a[1..] + b;
      AppendAllConcat(Append(m, a[0].0, a[0].1), a[1..], b);
    } else {
      assert a + b == b;
    }
  }

  /** One more append at the end of the fold. */
  lemma AppendAllSnoc<K(!new), V>(m: map<K, seq<V>>, rs: seq<(K, V)>, k: K, v: V)
    ensures AppendAll(m, rs + [(k, v)]) == Append(AppendAll(m, rs), k, v)
  {
    AppendAllConcat(m, rs, [(k, v)]);
  }

  /** Every value list of a map built from the empty map is non-empty:
      a defaultdict key exists only because something was appended. */
  lemma AppendAllNonEmpty<K(!new), V>(rs: seq<(K, V)>, k: K)
    requires k in AppendAll(map[], rs)
    ensures AppendAll(map[], rs)[k] != []
  {
    AppendAllKeys(map[], rs);
    AppendAllGet(map[], rs, k);
    SelectEmpty(rs, k);
  }

  /** Two maps with the same keys and the same list under every key are
      equal. */
  lemma GetExtensional<K(!new), V>(a: map<K, seq<V>>, b: map<K, seq<V>>)
    requires a.Keys == b.Keys
    requires forall k :: Get(a, k) == Get(b, k)
    ensures a == b
  {
    forall k | k in a ensures a[k] == b[k] {
      assert Get(a, k) == Get(b, k);
    }
  }
}
