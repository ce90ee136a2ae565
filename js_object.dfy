/**
 * A JavaScript object with string keys, as the grade pages use them: an
 * insertion-ordered list of (key, value) pairs. Reading `o[k]` finds the
 * pair with key `k`; assigning `o[k] = v` replaces that pair's value where
 * it stands, or appends a new pair at the end.
 */
module JsObject {
  import opened Wrappers

  type Obj<V> = seq<(string, V)>

  /** `Object.keys(o)`. */
  function Keys<V>(o: Obj<V>): (ks: seq<string>)
    ensures |ks| == |o|
    ensures forall i :: 0 <= i < |o| ==> ks[i] == o[i].0
  {
    seq(|o|, i requires 0 <= i < |o| => o[i].0)
  }

  /** No key occurs twice, as in every JavaScript object. */
  predicate UniqueKeys<V>(o: Obj<V>) {
    forall i, j :: 0 <= i < j < |o| ==> o[i].0 != o[j].0
  }

  /** The position of the pair with key `k`, or `|o|` when there is none. */
  function Find<V>(o: Obj<V>, k: string): (i: nat)
    ensures i <= |o|
    ensures i < |o| ==> o[i].0 == k
    ensures forall j :: 0 <= j < i ==> o[j].0 != k
  {
    if o == [] then 0 else if o[0].0 == k then 0 else 1 + Find(o[1..], k)
  }

  /** `o[k]`; `None` is `undefined`. */
  function Get<V>(o: Obj<V>, k: string): Option<V> {
    var i := Find(o, k);
    if i < |o| then Some(o[i].1) else None
  }

  /** `o[k] = v`. */
  function Set<V>(o: Obj<V>, k: string, v: V): Obj<V> {
    var i := Find(o, k);
    if i < |o| then o[i := (k, v)] else o + [(k, v)]
  }

  /** Objects with the same keys in the same order find every key at the same place. */
  lemma FindByKeys<V, W>(o1: Obj<V>, o2: Obj<W>, k: string)
    requires Keys(o1) == Keys(o2)
    ensures Find(o1, k) == Find(o2, k)
  {
    assert |o1| == |Keys(o1)| == |o2|;
  }

  /** After `o[k] = v` the key `k` reads `v`, every other key reads what it read before. */
  lemma GetSet<V>(o: Obj<V>, k: string, v: V, k': string)
    ensures Get(Set(o, k, v), k) == Some(v)
    ensures k' != k ==> Get(Set(o, k, v), k') == Get(o, k')
  {
    var i := Find(o, k);
    var o' := Set(o, k, v);
    if i < |o| {
      assert Keys(o') == Keys(o);
      FindByKeys(o, o', k);
      FindByKeys(o, o', k');
    } else {
      var f := Find(o', k);
      assert o'[|o|].0 == k;
      if k' != k {
        var j, j' := Find(o, k'), Find(o', k');
        if j < |o| { assert o'[j] == o[j]; }
      }
    }
  }

  /** `o[k] = v` keeps the order of the keys, and appends `k` if it is new. */
  lemma KeysOfSet<V>(o: Obj<V>, k: string, v: V)
    ensures Keys(Set(o, k, v)) == if k in Keys(o) then Keys(o) else Keys(o) + [k]
    ensures UniqueKeys(o) ==> UniqueKeys(Set(o, k, v))
  {
    var i := Find(o, k);
    if i < |o| {
      assert k in Keys(o) by { assert Keys(o)[i] == k; }
    } else {
      assert k !in Keys(o);
      assert Keys(Set(o, k, v)) == Keys(o) + [k];
    }
  }
}
