/** Python's insertion-ordered `dict`, as its list of items. Lookups find a
    key's entry; `Put` is `{**m, k: v}`; `Union` is `{**a, **b}`. */
module OrderedMaps {
  import opened Wrappers

  function Keys<K(!new), V>(m: seq<(K, V)>): (ks: seq<K>)
    ensures |ks| == |m|
    ensures forall i :: 0 <= i < |m| ==> ks[i] == m[i].0
  {
    seq(|m|, i requires 0 <= i < |m| => m[i].0)
  }

  /** What a Python dict guarantees: no key occurs twice. */
  predicate UniqueKeys<K(==,!new), V>(m: seq<(K, V)>) {
    forall i, j :: 0 <= i < j < |m| ==> m[i].0 != m[j].0
  }

  /** Some entry has key `k`. */
  predicate HasKey<K(==,!new), V>(m: seq<(K, V)>, k: K) {
    exists i :: 0 <= i < |m| && m[i].0 == k
  }

  /** Index of the first entry with key `k`. */
  function Find<K(==,!new), V>(m: seq<(K, V)>, k: K): (r: Option<nat>)
    ensures r.Some? <==> HasKey(m, k)
    ensures r.Some? ==> r.value < |m| && m[r.value].0 == k
    ensures r.Some? ==> forall j :: 0 <= j < r.value ==> m[j].0 != k
  {
    if m == [] then None
    else if m[0].0 == k then Some(0)
    else match Find(m[1..], k)
      case None => None
      case Some(i) => Some(i + 1)
  }

  /** `d[k]`, or None for a missing key. */
  function Get<K(==,!new), V>(m: seq<(K, V)>, k: K): (r: Option<V>)
    ensures r.Some? <==> HasKey(m, k)
  {
    match Find(m, k)
    case None => None
    case Some(i) => Some(m[i].1)
  }

  /** The value of the last entry with key `k`: what remains of `k` after
      every entry has been written in order. */
  function LastValue<K(==,!new), V>(m: seq<(K, V)>, k: K): (r: Option<V>)
    ensures r.Some? <==> HasKey(m, k)
  {
    if m == [] then None
    else
      match LastValue(m[1..], k)
      case Some(v) => Some(v)
      case None => if m[0].0 == k then Some(m[0].1) else None
  }

  /** `{**m, k: v}`: an existing key keeps its position and takes the new
      value, a new key is appended (PutGetOther: other keys are untouched). */
  function Put<K(==,!new), V>(m: seq<(K, V)>, k: K, v: V): (r: seq<(K, V)>)
    ensures Keys(r) == if HasKey(m, k) then Keys(m) else Keys(m) + [k]
    ensures Get(r, k) == Some(v)
  {
    match Find(m, k)
    case Some(i) =>
      var r := m[i := (k, v)];
      assert Keys(r) == Keys(m);
      assert Keys(r)[i] == k;
      assert Find(r, k).value == i;
      r
    case None =>
      var r := m + [(k, v)];
      assert Keys(r) == Keys(m) + [k];
      assert r[|m|].0 == k;
      assert Find(r, k).value == |m|;
      r
  }

  /** Writing one key leaves the value of every other key as it was. */
  lemma PutGetOther<K(!new), V>(m: seq<(K, V)>, k: K, v: V, k': K)
    requires k' != k
    ensures Get(Put(m, k, v), k') == Get(m, k')
  {
    match Find(m, k)
    case Some(i) => FindUpdate(m, i, k, v, k');
    case None => FindAppend(m, k, v, k');
  }

  /** Writing a key never introduces a duplicate key. */
  lemma PutUnique<K(!new), V>(m: seq<(K, V)>, k: K, v: V)
    requires UniqueKeys(m)
    ensures UniqueKeys(Put(m, k, v))
  {
    var r := Put(m, k, v);
    forall i, j | 0 <= i < j < |r| ensures r[i].0 != r[j].0 {
      assert Keys(r)[i] == r[i].0 && Keys(r)[j] == r[j].0;
      if !HasKey(m, k) && j == |m| {
        assert Keys(m)[i] == m[i].0;
      } else {
        assert Keys(m)[i] == m[i].0 && Keys(m)[j] == m[j].0;
      }
    }
  }

  lemma {:induction false} FindUpdate<K(!new), V>(m: seq<(K, V)>, i: nat, k: K, v: V, k': K)
    requires i < |m| && m[i].0 == k && k' != k
    ensures Find(m[i := (k, v)], k') == Find(m, k')
  {
    if i > 0 {
      assert m[i := (k, v)][1..] == m[1..][i - 1 := (k, v)];
      FindUpdate(m[1..], i - 1, k, v, k');
    }
  }

  lemma {:induction false} FindAppend<K(!new), V>(m: seq<(K, V)>, k: K, v: V, k': K)
    requires k' != k
    ensures Find(m + [(k, v)], k') == Find(m, k')
  {
    if m != [] {
      assert (m + [(k, v)])[1..] == m[1..] + [(k, v)];
      FindAppend(m[1..], k, v, k');
    }
  }

  /** A key is present exactly when it is one of the keys. */
  lemma HasKeyKeys<K(!new), V>(m: seq<(K, V)>, k: K)
    ensures HasKey(m, k) <==> k in Keys(m)
  {
    if k in Keys(m) {
      var i :| 0 <= i < |m| && Keys(m)[i] == k;
    }
  }

  /** After `{**m, k: v}` the keys present are those of `m` and `k`. */
  lemma PutHasKey<K(!new), V>(m: seq<(K, V)>, k: K, v: V)
    ensures forall k' :: HasKey(Put(m, k, v), k') <==> HasKey(m, k') || k' == k
  {
    forall k' ensures HasKey(Put(m, k, v), k') <==> HasKey(m, k') || k' == k {
      HasKeyKeys(m, k');
      HasKeyKeys(Put(m, k, v), k');
    }
  }

  /** `{**a, **b}`: the entries of `b` written into `a` in order. Its keys
      are those of `a` and those of `b`. */
  function Union<K(==,!new), V>(a: seq<(K, V)>, b: seq<(K, V)>): (r: seq<(K, V)>)
    ensures forall k :: HasKey(r, k) <==> HasKey(a, k) || HasKey(b, k)
    decreases |b|
  {
    if b == [] then a
    else
      PutHasKey(a, b[0].0, b[0].1);
      forall k ensures HasKey(b, k) <==> k == b[0].0 || HasKey(b[1..], k) {
        LastValueCons(b, k);
      }
      Union(Put(a, b[0].0, b[0].1), b[1..])
  }

  /** `dict(items)`: later duplicates overwrite earlier ones. The result
      has no duplicate key, and each key reads its last value in
      `items`. */
  function FromItems<K(==,!new), V>(items: seq<(K, V)>): (r: seq<(K, V)>)
    ensures UniqueKeys(r)
    ensures forall k :: Get(r, k) == LastValue(items, k)
  {
    UnionUnique([], items);
    UnionGetAll([], items);
    Union([], items)
  }

  /** The merge rule of `{**a, **b}`: a key of `b` takes its last value in
      `b`, any other key keeps its value in `a`. */
  lemma {:induction false} UnionGet<K(!new), V>(a: seq<(K, V)>, b: seq<(K, V)>, k: K)
    ensures Get(Union(a, b), k) == if HasKey(b, k) then LastValue(b, k) else Get(a, k)
    decreases |b|
  {
    if b != [] {
      var a' := Put(a, b[0].0, b[0].1);
      UnionGet(a', b[1..], k);
      LastValueCons(b, k);
      if !HasKey(b[1..], k) && k != b[0].0 {
        PutGetOther(a, b[0].0, b[0].1, k);
      }
    }
  }

  /** `UnionGet` for every key at once. */
  lemma UnionGetAll<K(!new), V>(a: seq<(K, V)>, b: seq<(K, V)>)
    ensures forall k :: Get(Union(a, b), k) == if HasKey(b, k) then LastValue(b, k) else Get(a, k)
  {
    forall k ensures Get(Union(a, b), k) == if HasKey(b, k) then LastValue(b, k) else Get(a, k) {
      UnionGet(a, b, k);
    }
  }

  /** The last value of a key, read off the first entry and the rest. */
  lemma LastValueCons<K(!new), V>(b: seq<(K, V)>, k: K)
    requires b != []
    ensures HasKey(b, k) <==> k == b[0].0 || HasKey(b[1..], k)
    ensures LastValue(b, k) ==
      if HasKey(b[1..], k) then LastValue(b[1..], k) else if k == b[0].0 then Some(b[0].1) else None
  {
    if HasKey(b, k) && k != b[0].0 {
      var i :| 0 <= i < |b| && b[i].0 == k;
      assert b[1..][i - 1].0 == k;
    }
    if HasKey(b[1..], k) {
      var i :| 0 <= i < |b[1..]| && b[1..][i].0 == k;
      assert b[i + 1].0 == k;
    }
  }

  /** `{**a, {k: v}}`: `k` reads `v`, every other key reads as in `a`. */
  lemma UnionSingle<K(!new), V>(a: seq<(K, V)>, k: K, v: V)
    ensures Get(Union(a, [(k, v)]), k) == Some(v)
    ensures forall k' :: k' != k ==> Get(Union(a, [(k, v)]), k') == Get(a, k')
  {
    assert Union(a, [(k, v)]) == Union(Put(a, k, v), []);
    forall k' | k' != k ensures Get(Put(a, k, v), k') == Get(a, k') {
      PutGetOther(a, k, v, k');
    }
  }

  /** Writing `k := v` brings in no entry other than `(k, v)`. */
  lemma PutFrom<K(!new), V>(m: seq<(K, V)>, k: K, v: V)
    ensures forall x :: x in Put(m, k, v) ==> x in m || x == (k, v)
  {
    match Find(m, k)
    case Some(i) =>
      var r := m[i := (k, v)];
      forall x | x in r ensures x in m || x == (k, v) {
        var j :| 0 <= j < |r| && r[j] == x;
        if j != i {
          assert x == m[j];
        }
      }
    case None =>
  }

  /** Every entry of `{**a, **b}` is an entry of `a` or of `b`. */
  lemma {:induction false} UnionFrom<K(!new), V>(a: seq<(K, V)>, b: seq<(K, V)>)
    ensures forall x :: x in Union(a, b) ==> x in a || x in b
    decreases |b|
  {
    if b != [] {
      var a' := Put(a, b[0].0, b[0].1);
      PutFrom(a, b[0].0, b[0].1);
      UnionFrom(a', b[1..]);
      assert forall x :: x in b[1..] ==> x in b;
    }
  }

  /** The keys of `a` keep their positions in `{**a, **b}`. */
  lemma {:induction false} UnionKeepsPositions<K(!new), V>(a: seq<(K, V)>, b: seq<(K, V)>)
    ensures |a| <= |Union(a, b)|
    ensures forall i :: 0 <= i < |a| ==> Union(a, b)[i].0 == a[i].0
    decreases |b|
  {
    if b != [] {
      var a' := Put(a, b[0].0, b[0].1);
      UnionKeepsPositions(a', b[1..]);
      forall i | 0 <= i < |a| ensures a'[i].0 == a[i].0 {
        assert Keys(a')[i] == Keys(a)[i];
      }
    }
  }

  /** `{**a, **b}` has no duplicate key when `a` has none. */
  lemma {:induction false} UnionUnique<K(!new), V>(a: seq<(K, V)>, b: seq<(K, V)>)
    requires UniqueKeys(a)
    ensures UniqueKeys(Union(a, b))
    decreases |b|
  {
    if b != [] {
      PutUnique(a, b[0].0, b[0].1);
      UnionUnique(Put(a, b[0].0, b[0].1), b[1..]);
    }
  }

  /** The entries past the keys of `a` carry keys of `b` that `a` lacks. */
  lemma {:induction false} UnionNewKeys<K(!new), V>(a: seq<(K, V)>, b: seq<(K, V)>)
    ensures forall i :: |a| <= i < |Union(a, b)| ==>
        HasKey(b, Union(a, b)[i].0) && !HasKey(a, Union(a, b)[i].0)
    decreases |b|
  {
    UnionKeepsPositions(a, b);
    if b != [] {
      var a' := Put(a, b[0].0, b[0].1);
      var r := Union(a, b);
      assert r == Union(a', b[1..]);
      UnionNewKeys(a', b[1..]);
      UnionKeepsPositions(a', b[1..]);
      forall i | |a| <= i < |r| ensures HasKey(b, r[i].0) && !HasKey(a, r[i].0) {
        if i < |a'| {
          assert Keys(a') == Keys(a) + [b[0].0];
          assert r[i].0 == a'[i].0 == Keys(a')[i] == b[0].0;
          assert b[0].0 == b[0].0;
        } else {
          var x := r[i].0;
          assert HasKey(b[1..], x) && !HasKey(a', x);
          var j :| 0 <= j < |b| - 1 && b[1..][j].0 == x;
          assert b[j + 1].0 == x;
          forall l | 0 <= l < |a| ensures a[l].0 != x {
            assert Keys(a')[l] == Keys(a)[l];
          }
        }
      }
    }
  }

  /** The new keys of `{**a, **b}` follow the order of their first
      occurrence in `b`. */
  lemma {:induction false} UnionNewOrder<K(!new), V>(a: seq<(K, V)>, b: seq<(K, V)>)
    ensures forall i :: |a| <= i < |Union(a, b)| ==> HasKey(b, Union(a, b)[i].0)
    ensures forall i, j :: |a| <= i < j < |Union(a, b)| ==>
        Find(b, Union(a, b)[i].0).value < Find(b, Union(a, b)[j].0).value
    decreases |b|
  {
    UnionNewKeys(a, b);
    if b != [] {
      var a' := Put(a, b[0].0, b[0].1);
      var r := Union(a, b);
      assert r == Union(a', b[1..]);
      UnionNewOrder(a', b[1..]);
      UnionNewKeys(a', b[1..]);
      UnionKeepsPositions(a', b[1..]);
      assert HasKey(a', b[0].0) by {
        assert Keys(a')[|Keys(a')| - 1] == b[0].0 || Keys(a') == Keys(a);
        if Keys(a') == Keys(a) {
          var l :| 0 <= l < |a| && a[l].0 == b[0].0;
          assert Keys(a')[l] == b[0].0;
        } else {
          assert a'[|a'| - 1].0 == b[0].0;
        }
      }
      forall i | |a'| <= i < |r|
        ensures Find(b, r[i].0).value == Find(b[1..], r[i].0).value + 1
      {
        assert r[i].0 != b[0].0;
      }
      forall i, j | |a| <= i < j < |r|
        ensures Find(b, r[i].0).value < Find(b, r[j].0).value
      {
        if i < |a'| {
          assert Keys(a') == Keys(a) + [b[0].0];
          assert r[i].0 == a'[i].0 == Keys(a')[i] == b[0].0;
        }
      }
    }
  }

  /** With distinct keys, the first key of `b` is new to `a`. */
  lemma NextKeyNew<K(!new), V>(a: seq<(K, V)>, b: seq<(K, V)>)
    requires UniqueKeys(a + b) && b != []
    ensures Find(a, b[0].0) == None
  {
    forall l | 0 <= l < |a| ensures a[l].0 != b[0].0 {
      assert (a + b)[l] == a[l] && (a + b)[|a|] == b[0];
    }
  }

  lemma MoveFirst<T>(a: seq<T>, b: seq<T>)
    requires b != []
    ensures (a + [b[0]]) + b[1..] == a + b
  {
  }

  /** Merging an entry with a new key appends it. */
  lemma UnionDistinctStep<K(!new), V>(a: seq<(K, V)>, b: seq<(K, V)>, a1: seq<(K, V)>, b1: seq<(K, V)>)
    requires b != [] && Find(a, b[0].0) == None && a1 == a + [b[0]] && b1 == b[1..]
    ensures Union(a, b) == Union(a1, b1)
  {
    assert Put(a, b[0].0, b[0].1) == a1;
  }

  /** Entries with distinct keys are all kept, in order: merging them into
      a dict that lacks their keys appends exactly those entries. */
  lemma {:induction false} UnionDistinct<K(!new), V>(a: seq<(K, V)>, b: seq<(K, V)>)
    requires UniqueKeys(a + b)
    ensures Union(a, b) == a + b
    decreases |b|
  {
    if b == [] {
      assert a + b == a;
    } else {
      var a1, b1 := a + [b[0]], b[1..];
      NextKeyNew(a, b);
      UnionDistinctStep(a, b, a1, b1);
      MoveFirst(a, b);
      UnionDistinct(a1, b1);
    }
  }
}
