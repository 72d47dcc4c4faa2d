/*
 * Insertion-ordered dictionaries, as Python's `OrderedDict` (and, since
 * Python 3.7, every `dict`) behaves: a key keeps the position of its first
 * insertion, assigning to a present key replaces its value in place, and
 * deleting a key closes the gap without reordering the rest.
 */
module OrderedDicts {

  datatype Option<T> = None | Some(value: T)

  /** A dictionary is the sequence of its (key, value) pairs in insertion order. */
  type Dict<K, V> = seq<(K, V)>

  ghost predicate Distinct<T>(s: seq<T>)
  {
    forall i, j :: 0 <= i < j < |s| ==> s[i] != s[j]
  }

  /** `list(d.keys())` */
  function Keys<K, V>(d: Dict<K, V>): seq<K>
  {
    seq(|d|, i requires 0 <= i < |d| => d[i].0)
  }

  /** The keys of a non-empty dictionary: its first key, then the keys of the rest. */
  lemma KeysCons<K, V>(d: Dict<K, V>)
    requires d != []
    ensures Keys(d) == [d[0].0] + Keys(d[1..])
  {
  }

  /** `list(d.values())` */
  function Values<K, V>(d: Dict<K, V>): seq<V>
  {
    seq(|d|, i requires 0 <= i < |d| => d[i].1)
  }

  /** `d.get(k)`: the value stored under `k`, if any. */
  function Lookup<K(==), V>(d: Dict<K, V>, k: K): (v: Option<V>)
    ensures v.None? <==> k !in Keys(d)
    ensures v.Some? ==> (k, v.value) in d
  {
    if d == [] then None
    else
      KeysCons(d);
      if d[0].0 == k then Some(d[0].1) else Lookup(d[1..], k)
  }

  /** `d[k] = v`: replaces the value of a present key where it stands, or appends a new key. */
  function Put<K(==,!new), V>(d: Dict<K, V>, k: K, v: V): (d': Dict<K, V>)
    ensures k !in Keys(d) ==> d' == d + [(k, v)] && Keys(d') == Keys(d) + [k]
    ensures k in Keys(d) ==> Keys(d') == Keys(d)
    ensures Lookup(d', k) == Some(v)
    ensures forall k' :: k' != k ==> Lookup(d', k') == Lookup(d, k')
    ensures forall p :: p in d' ==> p in d || p == (k, v)
  {
    if d == [] then [(k, v)]
    else if d[0].0 == k then assert Keys(d)[0] == k; [(k, v)] + d[1..]
    else
      KeysCons(d); [d[0]] + Put(d[1..], k, v)
  }

  /** `d.pop(k)` for the dictionary that remains: every pair keyed `k` is gone, all others stay. */
  function Remove<K(==,!new), V(!new)>(d: Dict<K, V>, k: K): (d': Dict<K, V>)
    ensures k !in Keys(d')
    ensures forall p :: p in d' <==> p in d && p.0 != k
    ensures k !in Keys(d) ==> d' == d
  {
    if d == [] then []
    else
      KeysCons(d);
      if d[0].0 == k then Remove(d[1..], k) else [d[0]] + Remove(d[1..], k)
  }

  /** With unique keys, a pair of the dictionary is exactly what a lookup of its key finds. */
  lemma {:induction false} LookupUnique<K, V>(d: Dict<K, V>, k: K, v: V)
    requires Distinct(Keys(d))
    requires (k, v) in d
    ensures Lookup(d, k) == Some(v)
  {
    var j :| 0 <= j < |d| && d[j] == (k, v);
    if j > 0 {
      assert Keys(d)[0] != Keys(d)[j];
      assert d[1..][j - 1] == (k, v);
      assert Keys(d[1..]) == Keys(d)[1..];
      LookupUnique(d[1..], k, v);
    }
  }

  /** Assigning to a present key replaces that one pair and moves nothing. */
  lemma {:induction false} PutInPlace<K(!new), V>(d: Dict<K, V>, k: K, v: V, i: nat)
    requires Distinct(Keys(d))
    requires i < |d| && d[i].0 == k
    ensures Put(d, k, v) == d[i := (k, v)]
  {
    if i > 0 {
      assert Keys(d)[0] != Keys(d)[i];
      assert Keys(d[1..]) == Keys(d)[1..];
      PutInPlace(d[1..], k, v, i - 1);
      assert d[i := (k, v)] == [d[0]] + d[1..][i - 1 := (k, v)];
    }
  }

  /** Assigning keeps the keys unique, and keeps their order when the key was present. */
  lemma PutKeys<K(!new), V>(d: Dict<K, V>, k: K, v: V)
    requires Distinct(Keys(d))
    ensures Distinct(Keys(Put(d, k, v)))
    ensures k in Keys(d) ==> Keys(Put(d, k, v)) == Keys(d)
  {
    if k in Keys(d) {
      var i :| 0 <= i < |d| && d[i].0 == k;
      PutInPlace(d, k, v, i);
      assert Keys(Put(d, k, v)) == Keys(d);
    }
  }

  /** Deleting a present key closes the gap and keeps the order of the other pairs. */
  lemma {:induction false} RemoveAt<K(!new), V(!new)>(d: Dict<K, V>, k: K, i: nat)
    requires Distinct(Keys(d))
    requires i < |d| && d[i].0 == k
    ensures Remove(d, k) == d[..i] + d[i + 1..]
  {
    assert Keys(d[1..]) == Keys(d)[1..];
    if i == 0 {
      assert k !in Keys(d[1..]) by {
        forall j | 0 <= j < |d[1..]| ensures Keys(d[1..])[j] != k {
          assert Keys(d)[0] != Keys(d)[j + 1];
        }
      }
    } else {
      assert Keys(d)[0] != Keys(d)[i];
      RemoveAt(d[1..], k, i - 1);
      assert d[..i] == [d[0]] + d[1..][..i - 1];
      assert d[i + 1..] == d[1..][i..];
    }
  }

  /** Deleting keeps the keys unique. */
  lemma RemoveKeys<K(!new), V(!new)>(d: Dict<K, V>, k: K)
    requires Distinct(Keys(d))
    ensures Distinct(Keys(Remove(d, k)))
  {
    if k in Keys(d) {
      var i :| 0 <= i < |d| && d[i].0 == k;
      RemoveAt(d, k, i);
      var r := Remove(d, k);
      forall a, b | 0 <= a < b < |r| ensures Keys(r)[a] != Keys(r)[b] {
        var a' := if a < i then a else a + 1;
        var b' := if b < i then b else b + 1;
        assert Keys(r)[a] == Keys(d)[a'] && Keys(r)[b] == Keys(d)[b'];
      }
    }
  }

  /** A second assignment to the same key overrides the first. */
  lemma {:induction false} PutTwice<K(!new), V>(d: Dict<K, V>, k: K, v: V, w: V)
    ensures Put(Put(d, k, v), k, w) == Put(d, k, w)
  {
    if d != [] && d[0].0 != k {
      PutTwice(d[1..], k, v, w);
    }
  }

  /** Assigning a key the value it already has changes nothing. */
  lemma {:induction false} PutSame<K(!new), V>(d: Dict<K, V>, k: K)
    requires k in Keys(d)
    ensures Put(d, k, Lookup(d, k).value) == d
  {
    if d[0].0 != k {
      KeysCons(d);
      PutSame(d[1..], k);
    }
  }
}
