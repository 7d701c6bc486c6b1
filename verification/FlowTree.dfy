/** Search trees as the programs use them: their entries, in an order that depends on how the tree was built.
    Two trees with the same entries in a different order are different values, as are two search trees with
    the same entries and a different shape. */
module FlowTree {
  import opened Options

  type Tree<K, V> = seq<(K, V)>

  function LookupTree<K(==), V>(t: Tree<K, V>, k: K): Maybe<V> {
    if t == [] then None else if t[0].0 == k then Some(t[0].1) else LookupTree(t[1..], k)
  }

  function SetTree<K(==), V>(t: Tree<K, V>, k: K, v: V): Tree<K, V> {
    if t == [] then [(k, v)]
    else if t[0].0 == k then [(k, v)] + t[1..]
    else [t[0]] + SetTree(t[1..], k, v)
  }

  /** `v` under a new key, or combined with the value that is there. */
  function CombineAt<K(==), V>(t: Tree<K, V>, k: K, v: V, f: (V, V) -> V): Tree<K, V> {
    match LookupTree(t, k)
    case Some(old_) => SetTree(t, k, f(old_, v))
    case None => SetTree(t, k, v)
  }

  /** Every entry of `r` added to `l`; where both have a key, the values are combined. */
  function MergeTreeCustom<K(==), V>(l: Tree<K, V>, r: Tree<K, V>, f: (V, V) -> V): Tree<K, V>
    decreases r
  {
    if r == [] then l else MergeTreeCustom(CombineAt(l, r[0].0, r[0].1, f), r[1..], f)
  }

  function MapTree<K, V>(t: Tree<K, V>, f: V -> V): Tree<K, V> {
    if t == [] then [] else [(t[0].0, f(t[0].1))] + MapTree(t[1..], f)
  }

  function FilterTree<K, V>(t: Tree<K, V>, keep: V -> bool): Tree<K, V> {
    if t == [] then []
    else if keep(t[0].1) then [t[0]] + FilterTree(t[1..], keep) else FilterTree(t[1..], keep)
  }

  function GetTreeKeys<K, V>(t: Tree<K, V>): seq<K> {
    if t == [] then [] else [t[0].0] + GetTreeKeys(t[1..])
  }

  predicate HasKey<K(==), V>(t: Tree<K, V>, k: K) {
    exists i :: 0 <= i < |t| && t[i].0 == k
  }

  predicate DistinctKeys<K(==), V>(t: Tree<K, V>) {
    forall i, j :: 0 <= i < j < |t| ==> t[i].0 != t[j].0
  }

  lemma {:induction false} LookupFinds<K, V>(t: Tree<K, V>, k: K)
    ensures LookupTree(t, k).Some? <==> HasKey(t, k)
    ensures LookupTree(t, k).Some? ==> (k, LookupTree(t, k).value) in t
  {
    if t != [] {
      LookupFinds(t[1..], k);
      if t[0].0 != k && HasKey(t, k) {
        var i :| 0 <= i < |t| && t[i].0 == k;
        assert t[1..][i-1].0 == k;
      }
    }
  }

  lemma {:induction false} LookupAt<K, V>(t: Tree<K, V>, i: nat)
    requires DistinctKeys(t) && i < |t|
    ensures LookupTree(t, t[i].0) == Some(t[i].1)
  {
    if i > 0 {
      LookupAt(t[1..], i - 1);
    }
  }

  lemma {:induction false} LookupSet<K, V>(t: Tree<K, V>, k: K, v: V, x: K)
    ensures LookupTree(SetTree(t, k, v), x) == if x == k then Some(v) else LookupTree(t, x)
  {
    if t != [] {
      LookupSet(t[1..], k, v, x);
    }
  }

  lemma {:induction false} SetKeys<K, V>(t: Tree<K, V>, k: K, v: V)
    ensures forall x :: HasKey(SetTree(t, k, v), x) <==> x == k || HasKey(t, x)
    ensures forall e :: e in SetTree(t, k, v) ==> e == (k, v) || e in t
    ensures DistinctKeys(t) ==> DistinctKeys(SetTree(t, k, v))
  {
    var s := SetTree(t, k, v);
    forall x ensures HasKey(s, x) <==> x == k || HasKey(t, x) {
      LookupSet(t, k, v, x);
      LookupFinds(s, x);
      LookupFinds(t, x);
    }
    if t != [] && t[0].0 != k {
      SetKeys(t[1..], k, v);
      if DistinctKeys(t) {
        SetDistinct(t, k, v);
      }
    }
  }

  lemma SetDistinct<K, V>(t: Tree<K, V>, k: K, v: V)
    requires t != [] && t[0].0 != k && DistinctKeys(t) && DistinctKeys(SetTree(t[1..], k, v))
    requires forall x :: HasKey(SetTree(t[1..], k, v), x) <==> x == k || HasKey(t[1..], x)
    ensures DistinctKeys(SetTree(t, k, v))
  {
    var rest := SetTree(t[1..], k, v);
    forall j | 0 <= j < |rest| ensures rest[j].0 != t[0].0 {
      assert HasKey(rest, rest[j].0);
    }
  }
}
