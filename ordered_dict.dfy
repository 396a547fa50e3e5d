/** An insertion-ordered Python `dict` as a sequence of key/value pairs with distinct keys.
    Assigning to a key that is already present replaces its value and keeps its position;
    a new key goes to the end. */
module OrderedDict {
  import opened Basics

  type Dict<K, V> = seq<(K, V)>

  function Keys<K, V>(d: Dict<K, V>): (ks: seq<K>)
    ensures |ks| == |d|
  {
    if d == [] then [] else [d[0].0] + Keys(d[1..])
  }

  predicate DistinctKeys<K(==), V>(d: Dict<K, V>)
  {
    Distinct(Keys(d))
  }

  /** `d.get(k)`: the value of the (first) pair with key `k`. */
  function Get<K(==), V>(d: Dict<K, V>, k: K): (r: Option<V>)
  {
    if d == [] then None
    else if d[0].0 == k then Some(d[0].1)
    else Get(d[1..], k)
  }

  /** `d[k] = v`. */
  function Put<K(==), V>(d: Dict<K, V>, k: K, v: V): (r: Dict<K, V>)
    ensures |d| <= |r| <= |d| + 1
  {
    if d == [] then [(k, v)]
    else if d[0].0 == k then [(k, v)] + d[1..]
    else [d[0]] + Put(d[1..], k, v)
  }

  lemma {:induction false} GetNoneIffAbsent<K, V>(d: Dict<K, V>, k: K)
    ensures Get(d, k).None? <==> k !in Keys(d)
  {
    if d != [] {
      GetNoneIffAbsent(d[1..], k);
    }
  }

  /** Assignment keeps the key order, and a new key is appended. */
  lemma {:induction false} PutKeys<K, V>(d: Dict<K, V>, k: K, v: V)
    ensures Keys(Put(d, k, v)) == if k in Keys(d) then Keys(d) else Keys(d) + [k]
  {
    if d != [] && d[0].0 != k {
      PutKeys(d[1..], k, v);
      assert Keys(d) == [d[0].0] + Keys(d[1..]);
    }
  }

  lemma PutKeepsDistinct<K, V>(d: Dict<K, V>, k: K, v: V)
    requires DistinctKeys(d)
    ensures DistinctKeys(Put(d, k, v))
  {
    PutKeys(d, k, v);
  }

  /** Reading a key right after assigning it gives the assigned value; other keys are unaffected. */
  lemma {:induction false} GetPut<K, V>(d: Dict<K, V>, k: K, v: V, k2: K)
    ensures Get(Put(d, k, v), k2) == if k2 == k then Some(v) else Get(d, k2)
  {
    if d != [] && d[0].0 != k {
      GetPut(d[1..], k, v, k2);
    }
  }

  /** Assigning a key leaves the value of the pair at every other position unchanged. */
  lemma {:induction false} PutKeepsOthers<K, V>(d: Dict<K, V>, k: K, v: V, i: int)
    requires 0 <= i < |d| && d[i].0 != k
    ensures Put(d, k, v)[i] == d[i]
  {
    if d[0].0 != k && i > 0 {
      PutKeepsOthers(d[1..], k, v, i - 1);
    }
  }

  /** Assignment adds the assigned pair and keeps only pairs that were already there. */
  lemma {:induction false} PutMembers<K, V>(d: Dict<K, V>, k: K, v: V)
    ensures (k, v) in Put(d, k, v)
    ensures forall kv :: kv in Put(d, k, v) ==> kv in d || kv == (k, v)
  {
    if d != [] && d[0].0 != k {
      PutMembers(d[1..], k, v);
      forall kv | kv in Put(d, k, v)
        ensures kv in d || kv == (k, v)
      {
        if kv != d[0] {
          assert kv in Put(d[1..], k, v);
          assert kv in d[1..] || kv == (k, v);
        }
      }
    }
  }

  lemma {:induction false} KeysMember<K, V>(d: Dict<K, V>, kv: (K, V))
    requires kv in d
    ensures kv.0 in Keys(d)
  {
    if d[0] != kv {
      KeysMember(d[1..], kv);
    }
  }

  lemma DistinctKeysTail<K, V>(d: Dict<K, V>)
    requires d != [] && DistinctKeys(d)
    ensures DistinctKeys(d[1..]) && d[0].0 !in Keys(d[1..])
  {
    var ks := Keys(d);
    assert ks == [d[0].0] + Keys(d[1..]);
    forall i, j | 0 <= i < j < |Keys(d[1..])|
      ensures Keys(d[1..])[i] != Keys(d[1..])[j]
    {
      assert Keys(d[1..])[i] == ks[i + 1] && Keys(d[1..])[j] == ks[j + 1];
    }
    forall j | 0 <= j < |Keys(d[1..])|
      ensures Keys(d[1..])[j] != d[0].0
    {
      assert Keys(d[1..])[j] == ks[j + 1] && ks[0] == d[0].0;
    }
  }

  /** With distinct keys, every listed pair is what `get` finds for its key. */
  lemma {:induction false} GetMember<K, V>(d: Dict<K, V>, kv: (K, V))
    requires DistinctKeys(d) && kv in d
    ensures Get(d, kv.0) == Some(kv.1)
  {
    if d[0] != kv {
      assert kv in d[1..];
      KeysMember(d[1..], kv);
      DistinctKeysTail(d);
      GetMember(d[1..], kv);
    }
  }

  /** With distinct keys no pair is listed twice. */
  lemma {:induction false} DistinctKeysOnce<K, V>(d: Dict<K, V>, kv: (K, V))
    requires DistinctKeys(d)
    ensures multiset(d)[kv] <= 1
  {
    if d != [] {
      DistinctKeysTail(d);
      DistinctKeysOnce(d[1..], kv);
      assert d == [d[0]] + d[1..];
      if kv == d[0] && kv in d[1..] {
        KeysMember(d[1..], kv);
      }
    }
  }

  /** What `get` finds is a listed pair. */
  lemma {:induction false} GetIn<K, V>(d: Dict<K, V>, k: K)
    requires Get(d, k).Some?
    ensures (k, Get(d, k).value) in d
  {
    if d[0].0 != k {
      GetIn(d[1..], k);
    }
  }
}
