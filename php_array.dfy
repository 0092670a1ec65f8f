/**
 * PHP's ordered associative arrays, as a sequence of key/value pairs with
 * distinct keys. `$a[$k] = $v` replaces the value in place when the key is
 * present and appends the pair otherwise.
 */
module PhpArray {
  import opened Wrappers

  type Assoc<K, V> = seq<(K, V)>

  function Keys<K, V>(a: Assoc<K, V>): (ks: seq<K>)
    ensures |ks| == |a| && forall i :: 0 <= i < |a| ==> ks[i] == a[i].0
  {
    if a == [] then [] else [a[0].0] + Keys(a[1..])
  }

  predicate DistinctKeys<K(==), V>(a: Assoc<K, V>) {
    forall i, j :: 0 <= i < j < |a| ==> a[i].0 != a[j].0
  }

  /** `$a[$k]` when `isset`: the value of the first pair with key k. */
  function Get<K(==), V>(a: Assoc<K, V>, k: K): (r: Option<V>)
    ensures r.None? <==> forall i :: 0 <= i < |a| ==> a[i].0 != k
    ensures r.Some? ==> exists i :: 0 <= i < |a| && a[i] == (k, r.value)
  {
    if a == [] then None
    else if a[0].0 == k then Some(a[0].1)
    else
      var r := Get(a[1..], k);
      assert r.Some? ==> exists i :: 0 <= i < |a[1..]| && a[1..][i] == (k, r.value);
      assert r.Some? ==> exists i :: 1 <= i < |a| && a[i] == (k, r.value);
      r
  }

  /** With distinct keys, the pair at index i is what Get finds for its key. */
  lemma {:induction false} GetAt<K, V>(a: Assoc<K, V>, i: nat)
    requires DistinctKeys(a) && i < |a|
    ensures Get(a, a[i].0) == Some(a[i].1)
  {
    if i > 0 {
      GetAt(a[1..], i - 1);
    }
  }

  /** `$a[$k] = $v`. */
  function Put<K(==), V>(a: Assoc<K, V>, k: K, v: V): (r: Assoc<K, V>)
    ensures |r| == if Get(a, k).None? then |a| + 1 else |a|
    ensures Get(a, k).Some? ==> Keys(r) == Keys(a)
    ensures Get(a, k).None? ==> Keys(r) == Keys(a) + [k]
  {
    if a == [] then [(k, v)]
    else if a[0].0 == k then [(k, v)] + a[1..]
    else [a[0]] + Put(a[1..], k, v)
  }

  /** After `$a[$k] = $v`, key k holds v and every other key is untouched. */
  lemma {:induction false} GetPut<K, V>(a: Assoc<K, V>, k: K, v: V, k': K)
    ensures Get(Put(a, k, v), k') == if k' == k then Some(v) else Get(a, k')
  {
    if a != [] && a[0].0 != k {
      GetPut(a[1..], k, v, k');
    }
  }

  lemma {:induction false} PutDistinct<K, V>(a: Assoc<K, V>, k: K, v: V)
    requires DistinctKeys(a)
    ensures DistinctKeys(Put(a, k, v))
  {
    var r := Put(a, k, v);
    var ka, kr := Keys(a), Keys(r);
    if Get(a, k).None? {
      assert forall i :: 0 <= i < |r| ==> r[i].0 == kr[i];
      assert forall i :: 0 <= i < |a| ==> r[i].0 == a[i].0;
    } else {
      assert forall i :: 0 <= i < |r| ==> r[i].0 == kr[i] == ka[i] == a[i].0;
    }
  }

  /** The sum of the values of a counting array. */
  function SumValues<K>(a: Assoc<K, nat>): nat {
    if a == [] then 0 else a[0].1 + SumValues(a[1..])
  }

  /** Overwriting key k's count with v changes the sum by v minus the old count. */
  lemma {:induction false} SumPut<K>(a: Assoc<K, nat>, k: K, v: nat)
    requires DistinctKeys(a)
    ensures SumValues(Put(a, k, v)) + Get(a, k).GetOr(0) == SumValues(a) + v
  {
    if a != [] {
      if a[0].0 == k {
        assert Get(a[1..], k).None?;
        assert Put(a, k, v)[1..] == a[1..];
      } else {
        SumPut(a[1..], k, v);
        assert Put(a, k, v)[1..] == Put(a[1..], k, v);
      }
    }
  }
}
