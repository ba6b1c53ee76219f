/**
 An insertion-ordered dictionary with Python `dict` semantics: a sequence of
 key/value pairs whose keys are pairwise distinct. Assigning to a key that is
 already present replaces its value in place; a new key is appended. `update`
 assigns the entries of the second dictionary one after the other, so on a
 shared key the later value wins but the key keeps its original position.
 */
module Dicts {

  type Dict<K, V> = seq<(K, V)>

  function Keys<K(==), V(==)>(d: Dict<K, V>): set<K>
  {
    if d == [] then {} else {d[0].0} + Keys(d[1..])
  }

  predicate UniqueKeys<K(==), V(==)>(d: Dict<K, V>)
  {
    d == [] || (d[0].0 !in Keys(d[1..]) && UniqueKeys(d[1..]))
  }

  /** The value stored under `k` (the first entry with that key). */
  function Get<K(==), V(==)>(d: Dict<K, V>, k: K): V
    requires k in Keys(d)
  {
    if d[0].0 == k then d[0].1 else Get(d[1..], k)
  }

  /** Every entry of a dictionary carries a key of it. */
  lemma {:induction false} EntryKey<K, V>(d: Dict<K, V>, kv: (K, V))
    requires kv in d
    ensures kv.0 in Keys(d)
  {
    if d[0] != kv {
      EntryKey(d[1..], kv);
    }
  }

  /** A key of a dictionary has an entry carrying the value stored under it. */
  lemma {:induction false} KeyEntry<K, V>(d: Dict<K, V>, k: K)
    requires k in Keys(d)
    ensures (k, Get(d, k)) in d
  {
    if d[0].0 != k {
      KeyEntry(d[1..], k);
    }
  }

  /** In a dictionary with distinct keys, the value stored under a key is the
      value of its entry, and that entry is the only one with the key. */
  lemma {:induction false} GetEntry<K, V>(d: Dict<K, V>, k: K)
    requires UniqueKeys(d) && k in Keys(d)
    ensures (k, Get(d, k)) in d
    ensures forall v :: (k, v) in d ==> v == Get(d, k)
  {
    if d[0].0 != k {
      GetEntry(d[1..], k);
    } else {
      forall v | (k, v) in d
        ensures v == Get(d, k)
      {
        if (k, v) != d[0] {
          assert (k, v) in d[1..];
          EntryKey(d[1..], (k, v));
        }
      }
    }
  }

  /** Python's `d[k] = v`. */
  function Put<K(==), V(==)>(d: Dict<K, V>, k: K, v: V): (r: Dict<K, V>)
    ensures Keys(r) == Keys(d) + {k}
    ensures UniqueKeys(d) ==> UniqueKeys(r)
    ensures Get(r, k) == v
    ensures forall k' :: k' in Keys(d) && k' != k ==> Get(r, k') == Get(d, k')
    ensures forall kv :: kv in r ==> kv in d || kv == (k, v)
    ensures |r| == if k in Keys(d) then |d| else |d| + 1
  {
    if d == [] then [(k, v)]
    else if d[0].0 == k then [(k, v)] + d[1..]
    else [d[0]] + Put(d[1..], k, v)
  }

  /** The position of the first entry carrying `k`. */
  function FirstIndex<K(==), V(==)>(d: Dict<K, V>, k: K): (i: nat)
    requires k in Keys(d)
    ensures i < |d| && d[i].0 == k
    ensures forall j :: 0 <= j < i ==> d[j].0 != k
  {
    if d[0].0 == k then 0 else 1 + FirstIndex(d[1..], k)
  }

  /** Python's `d.update(e)`. */
  function Update<K(==), V(==)>(d: Dict<K, V>, e: Dict<K, V>): (r: Dict<K, V>)
    ensures Keys(r) == Keys(d) + Keys(e)
    ensures UniqueKeys(d) ==> UniqueKeys(r)
    ensures UniqueKeys(e) ==>
      forall k :: k in Keys(r) ==> Get(r, k) == if k in Keys(e) then Get(e, k) else Get(d, k)
    ensures forall kv :: kv in r ==> kv in d || kv in e
    decreases |e|
  {
    if e == [] then d
    else Update(Put(d, e[0].0, e[0].1), e[1..])
  }

  /** Where `d[k] = v` leaves the entries: a new key is appended last; a key
      already present keeps its place and only its first entry changes. */
  lemma {:induction false} PutOrder<K, V>(d: Dict<K, V>, k: K, v: V)
    ensures k !in Keys(d) ==> Put(d, k, v) == d + [(k, v)]
    ensures k in Keys(d) ==>
      && |Put(d, k, v)| == |d|
      && forall i :: 0 <= i < |d| ==> Put(d, k, v)[i] == if i == FirstIndex(d, k) then (k, v) else d[i]
  {
    if d != [] && d[0].0 != k {
      PutOrder(d[1..], k, v);
    }
  }

  /** Where `d.update(e)` leaves the entries: the keys of `d` keep their
      places, and the keys new to `d` follow, each once, in the order they
      first occur in `e`. */
  lemma {:induction false} UpdateOrder<K, V>(d: Dict<K, V>, e: Dict<K, V>)
    ensures var r := Update(d, e);
      && |d| <= |r| && (forall i :: 0 <= i < |d| ==> r[i].0 == d[i].0)
      && (forall i :: |d| <= i < |r| ==> r[i].0 in Keys(e) && r[i].0 !in Keys(d))
      && (forall i, j :: |d| <= i < j < |r| ==> FirstIndex(e, r[i].0) < FirstIndex(e, r[j].0))
    decreases |e|
  {
    if e != [] {
      var d' := Put(d, e[0].0, e[0].1);
      PutOrder(d, e[0].0, e[0].1);
      UpdateOrder(d', e[1..]);
    }
  }

  /** A property of every entry of both dictionaries holds of every entry of the update. */
  lemma UpdateAll<K, V>(d: Dict<K, V>, e: Dict<K, V>, P: ((K, V)) -> bool)
    requires forall kv :: kv in d ==> P(kv)
    requires forall kv :: kv in e ==> P(kv)
    ensures forall kv :: kv in Update(d, e) ==> P(kv)
  {
  }

  /** Reading a key through two updates that do not carry it. */
  lemma GetPast<K, V>(d: Dict<K, V>, e1: Dict<K, V>, e2: Dict<K, V>, k: K)
    requires k in Keys(d) && UniqueKeys(e1) && UniqueKeys(e2) && k !in Keys(e1) && k !in Keys(e2)
    ensures k in Keys(Update(Update(d, e1), e2)) && Get(Update(Update(d, e1), e2), k) == Get(d, k)
  {
  }

  /** Reading a key the first of two updates carries and the second does not. */
  lemma GetMiddle<K, V>(d: Dict<K, V>, e1: Dict<K, V>, e2: Dict<K, V>, k: K)
    requires UniqueKeys(e1) && UniqueKeys(e2) && k in Keys(e1) && k !in Keys(e2)
    ensures k in Keys(Update(Update(d, e1), e2)) && Get(Update(Update(d, e1), e2), k) == Get(e1, k)
  {
  }

  /** Reading a key the last update carries. */
  lemma GetLast<K, V>(d: Dict<K, V>, e1: Dict<K, V>, e2: Dict<K, V>, k: K)
    requires UniqueKeys(e2) && k in Keys(e2)
    ensures k in Keys(Update(Update(d, e1), e2)) && Get(Update(Update(d, e1), e2), k) == Get(e2, k)
  {
  }
}
