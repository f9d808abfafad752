/** Insertion-ordered dictionaries. Python's `dict` keeps keys in the order
    they were first inserted, and assigning to an existing key keeps its
    position; an association list `seq<(K, V)>` with these operations models
    that exactly. Lookup uses the first pair with the key, so lists built only
    through `Put` never hold a key twice. */
module Assoc {
  import opened Wrappers
  import Seqs

  function Keys<K, V>(m: seq<(K, V)>): (ks: seq<K>)
    ensures |ks| == |m|
    ensures forall i :: 0 <= i < |m| ==> ks[i] == m[i].0
  {
    seq(|m|, i requires 0 <= i < |m| => m[i].0)
  }

  predicate HasKey<K(==), V>(m: seq<(K, V)>, k: K)
  {
    k in Keys(m)
  }

  /** Position of `k` in the dictionary. */
  function IndexOf<K(==), V>(m: seq<(K, V)>, k: K): (i: nat)
    requires HasKey(m, k)
    ensures i < |m| && m[i].0 == k
    ensures forall j :: 0 <= j < i ==> m[j].0 != k
  {
    Seqs.FirstIndex(Keys(m), k)
  }

  /** `d.get(k)`, with `None` for a missing key. */
  function Get<K(==), V>(m: seq<(K, V)>, k: K): (r: Option<V>)
    ensures r.Some? <==> HasKey(m, k)
  {
    if HasKey(m, k) then Some(m[IndexOf(m, k)].1) else None
  }

  /** `d[k] = v`: an existing key keeps its position and takes the new value;
      a new key is appended at the end. No other key's value changes. */
  function Put<K(==,!new), V>(m: seq<(K, V)>, k: K, v: V): (r: seq<(K, V)>)
    ensures Keys(r) == if HasKey(m, k) then Keys(m) else Keys(m) + [k]
    ensures Get(r, k) == Some(v)
    ensures forall k' :: k' != k ==> Get(r, k') == Get(m, k')
  {
    if HasKey(m, k) then
      var i := IndexOf(m, k);
      var r := m[i := (k, v)];
      assert Keys(r) == Keys(m);
      r
    else
      var r := m + [(k, v)];
      assert Keys(r) == Keys(m) + [k];
      assert forall k' :: k' in Keys(m) ==> IndexOf(r, k') == IndexOf(m, k') by {
        forall k' | k' in Keys(m) {
          Seqs.FirstIndexAppend(Keys(m), [k], k');
        }
      }
      r
  }

  lemma PutKeepsNoDup<K(!new), V>(m: seq<(K, V)>, k: K, v: V)
    requires Seqs.NoDup(Keys(m))
    ensures Seqs.NoDup(Keys(Put(m, k, v)))
  {
  }

  /** The sum of the values of an integer-valued dictionary. */
  function Sum<K>(m: seq<(K, int)>): int
  {
    if m == [] then 0 else m[0].1 + Sum(m[1..])
  }

  lemma {:induction false} SumAppend<K>(m: seq<(K, int)>, p: (K, int))
    ensures Sum(m + [p]) == Sum(m) + p.1
  {
    if m != [] {
      assert (m + [p])[1..] == m[1..] + [p];
      SumAppend(m[1..], p);
    }
  }

  lemma {:induction false} SumUpdate<K>(m: seq<(K, int)>, i: nat, p: (K, int))
    requires i < |m|
    ensures Sum(m[i := p]) == Sum(m) - m[i].1 + p.1
  {
    if i > 0 {
      assert m[i := p][1..] == m[1..][i - 1 := p];
      SumUpdate(m[1..], i - 1, p);
    }
  }

  /** `d[k] = d.get(k, 0) + 1`, the counting idiom of the source. */
  function Bump<K(==,!new)>(m: seq<(K, int)>, k: K): (r: seq<(K, int)>)
    ensures Keys(r) == if HasKey(m, k) then Keys(m) else Keys(m) + [k]
    ensures Get(r, k) == Some(Get(m, k).GetOr(0) + 1)
    ensures forall k' :: k' != k ==> Get(r, k') == Get(m, k')
    ensures Sum(r) == Sum(m) + 1
  {
    var r := Put(m, k, Get(m, k).GetOr(0) + 1);
    assert Sum(r) == Sum(m) + 1 by {
      if HasKey(m, k) {
        SumUpdate(m, IndexOf(m, k), (k, Get(m, k).GetOr(0) + 1));
      } else {
        SumAppend(m, (k, 1));
      }
    }
    r
  }

  /** With keys held once each, looking up the key of pair `i` finds pair `i`. */
  lemma GetAt<K, V>(m: seq<(K, V)>, i: nat)
    requires Seqs.NoDup(Keys(m)) && i < |m|
    ensures Get(m, m[i].0) == Some(m[i].1)
  {
    var j := IndexOf(m, m[i].0);
    assert Keys(m)[j] == Keys(m)[i];
  }

  /** `{k: f(v) for k, v in d.items()}`. */
  function MapValues<K, V, W>(m: seq<(K, V)>, f: V -> W): (r: seq<(K, W)>)
    ensures |r| == |m|
    ensures forall i :: 0 <= i < |m| ==> r[i] == (m[i].0, f(m[i].1))
  {
    seq(|m|, i requires 0 <= i < |m| => (m[i].0, f(m[i].1)))
  }

  lemma MapValuesGet<K, V, W>(m: seq<(K, V)>, f: V -> W, k: K)
    ensures Keys(MapValues(m, f)) == Keys(m)
    ensures Get(MapValues(m, f), k) == if HasKey(m, k) then Some(f(Get(m, k).value)) else None
  {
    assert Keys(MapValues(m, f)) == Keys(m);
  }

  /** Mapping the values commutes with assigning a key. */
  lemma MapValuesPut<K(!new), V, W>(m: seq<(K, V)>, f: V -> W, k: K, v: V)
    ensures MapValues(Put(m, k, v), f) == Put(MapValues(m, f), k, f(v))
  {
    MapValuesGet(m, f, k);
    assert Keys(MapValues(m, f)) == Keys(m);
    if HasKey(m, k) {
      assert IndexOf(MapValues(m, f), k) == IndexOf(m, k);
    } else {
      assert MapValues(m + [(k, v)], f) == MapValues(m, f) + [(k, f(v))];
    }
  }
}
