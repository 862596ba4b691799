/** A Python `dict` as the program uses it: keys in insertion order, assignment
    to an existing key keeping its position, `popitem()` taking the most recently
    inserted entry, and deletion by key. */
module PyDict {
  import opened Base

  type Dict<K, V> = seq<(K, V)>

  function Keys<K, V>(d: Dict<K, V>): (ks: seq<K>)
    ensures |ks| == |d|
    ensures forall i :: 0 <= i < |d| ==> ks[i] == d[i].0
  {
    if |d| == 0 then [] else Keys(d[..|d| - 1]) + [d[|d| - 1].0]
  }

  /** No key occurs twice. */
  predicate Valid<K(==), V>(d: Dict<K, V>) {
    forall i, j :: 0 <= i < j < |d| ==> d[i].0 != d[j].0
  }

  /** No value occurs twice. */
  predicate DistinctValues<K, V(==)>(d: Dict<K, V>) {
    forall i, j :: 0 <= i < j < |d| ==> d[i].1 != d[j].1
  }

  predicate HasKey<K(==), V>(d: Dict<K, V>, k: K) {
    exists i :: 0 <= i < |d| && d[i].0 == k
  }

  predicate HasValue<K, V(==)>(d: Dict<K, V>, v: V) {
    exists i :: 0 <= i < |d| && d[i].1 == v
  }

  /** Position of key k. */
  function IndexOf<K(==), V>(d: Dict<K, V>, k: K): (i: nat)
    requires HasKey(d, k)
    ensures i < |d| && d[i].0 == k
    ensures forall j :: 0 <= j < i ==> d[j].0 != k
  {
    if d[0].0 == k then 0
    else
      assert HasKey(d[1..], k) by {
        var j :| 0 <= j < |d| && d[j].0 == k;
        assert d[1..][j - 1].0 == k;
      }
      1 + IndexOf(d[1..], k)
  }

  /** `d[k]`, for a key that is present. */
  function Get<K(==), V>(d: Dict<K, V>, k: K): V
    requires HasKey(d, k)
  {
    d[IndexOf(d, k)].1
  }

  /** `d[k] = v`: replaces the value in place when k is present, appends otherwise. */
  function Put<K(==), V>(d: Dict<K, V>, k: K, v: V): (r: Dict<K, V>)
    ensures HasKey(d, k) ==> |r| == |d| && r == d[IndexOf(d, k) := (k, v)]
    ensures !HasKey(d, k) ==> r == d + [(k, v)]
  {
    if HasKey(d, k) then d[IndexOf(d, k) := (k, v)] else d + [(k, v)]
  }

  /** `del d[k]`, for a key that may or may not be present (absent: unchanged). */
  function Delete<K(==), V>(d: Dict<K, V>, k: K): (r: Dict<K, V>)
    ensures HasKey(d, k) ==> |r| == |d| - 1
    ensures !HasKey(d, k) ==> r == d
  {
    if HasKey(d, k) then
      var i := IndexOf(d, k);
      d[..i] + d[i + 1..]
    else d
  }

  /** Position of the first entry whose value is v. */
  function ValueIndex<K, V(==)>(d: Dict<K, V>, v: V): (i: nat)
    requires HasValue(d, v)
    ensures i < |d| && d[i].1 == v
    ensures forall j :: 0 <= j < i ==> d[j].1 != v
  {
    if d[0].1 == v then 0
    else
      assert HasValue(d[1..], v) by {
        var j :| 0 <= j < |d| && d[j].1 == v;
        assert d[1..][j - 1].1 == v;
      }
      1 + ValueIndex(d[1..], v)
  }

  /** The first key whose value is v: the search loop of `__handle_band_stats_closed`. */
  function FindKey<K, V(==)>(d: Dict<K, V>, v: V): (r: Option<K>)
    ensures r.None? <==> !HasValue(d, v)
    ensures r.Some? ==> r.value == d[ValueIndex(d, v)].0
  {
    if |d| == 0 then None
    else if d[0].1 == v then Some(d[0].0)
    else
      var r := FindKey(d[1..], v);
      assert HasValue(d, v) ==> HasValue(d[1..], v) by {
        if HasValue(d, v) {
          var j :| 0 <= j < |d| && d[j].1 == v;
          assert d[1..][j - 1].1 == v;
        }
      }
      assert r.Some? ==> HasValue(d, v) by {
        if r.Some? {
          var i := ValueIndex(d[1..], v);
          assert d[i + 1].1 == v;
        }
      }
      r
  }

  // ---------------------------------------------------------------------
  // Properties of the operations on a valid dict

  /** After `d[k] = v` the key maps to v, every other key keeps its value,
      and the keys stay distinct. */
  lemma PutSpec<K, V>(d: Dict<K, V>, k: K, v: V)
    requires Valid(d)
    ensures Valid(Put(d, k, v))
    ensures HasKey(Put(d, k, v), k) && Get(Put(d, k, v), k) == v
    ensures forall k' :: k' != k ==> (HasKey(Put(d, k, v), k') <==> HasKey(d, k'))
    ensures forall k' :: k' != k && HasKey(d, k') ==> Get(Put(d, k, v), k') == Get(d, k')
  {
    var r := Put(d, k, v);
    assert r[if HasKey(d, k) then IndexOf(d, k) else |d|] == (k, v);
    forall k' | k' != k && HasKey(d, k')
      ensures HasKey(r, k') && Get(r, k') == Get(d, k')
    {
      var i := IndexOf(d, k');
      assert r[i] == d[i];
      GetAt(r, i);
    }
    forall k' | k' != k && HasKey(r, k')
      ensures HasKey(d, k')
    {
      var i := IndexOf(r, k');
      assert d[i].0 == k';
    }
  }

  /** In a valid dict, the entry at position i is what `Get` finds for its key. */
  lemma GetAt<K, V>(d: Dict<K, V>, i: nat)
    requires Valid(d) && i < |d|
    ensures HasKey(d, d[i].0) && Get(d, d[i].0) == d[i].1
  {
    assert HasKey(d, d[i].0);
  }

  /** Where the entries of `del d[k]` come from: positions before k's stay put,
      positions after it move down by one. */
  lemma DeleteShape<K, V>(d: Dict<K, V>, k: K)
    requires HasKey(d, k)
    ensures var i := IndexOf(d, k); var r := Delete(d, k);
      && (forall j :: 0 <= j < i ==> r[j] == d[j])
      && (forall j :: i <= j < |r| ==> r[j] == d[j + 1])
  {
  }

  /** `del d[k]` removes exactly k and keeps the keys distinct. */
  lemma DeleteSpec<K, V>(d: Dict<K, V>, k: K)
    requires Valid(d)
    ensures Valid(Delete(d, k))
    ensures !HasKey(Delete(d, k), k)
    ensures forall k' :: k' != k ==> (HasKey(Delete(d, k), k') <==> HasKey(d, k'))
    ensures forall v :: HasValue(Delete(d, k), v) ==> HasValue(d, v)
  {
    if HasKey(d, k) {
      DeleteShape(d, k);
      var i := IndexOf(d, k);
      var r := Delete(d, k);
      forall k' | k' != k && HasKey(d, k')
        ensures HasKey(r, k')
      {
        var m := IndexOf(d, k');
        assert r[if m < i then m else m - 1] == d[m];
      }
      forall k' | HasKey(r, k')
        ensures k' != k && HasKey(d, k')
      {
        var m := IndexOf(r, k');
        assert d[if m < i then m else m + 1] == r[m];
      }
      forall v | HasValue(r, v)
        ensures HasValue(d, v)
      {
        var m :| 0 <= m < |r| && r[m].1 == v;
        assert d[if m < i then m else m + 1].1 == v;
      }
    }
  }

  /** `del d[k]` leaves the value of every other key alone. */
  lemma DeleteKeepsOthers<K, V>(d: Dict<K, V>, k: K, k': K)
    requires Valid(d) && k' != k && HasKey(d, k')
    ensures HasKey(Delete(d, k), k') && Get(Delete(d, k), k') == Get(d, k')
  {
    DeleteSpec(d, k);
    if HasKey(d, k) {
      DeleteShape(d, k);
      var i := IndexOf(d, k);
      var m := IndexOf(d, k');
      var p := if m < i then m else m - 1;
      assert Delete(d, k)[p] == d[m];
      GetAt(Delete(d, k), p);
    }
  }

  /** In a dict with distinct values, removing the first key holding v is the
      same as deleting v's own key. */
  lemma FindKeyUnique<K, V>(d: Dict<K, V>, k: K)
    requires Valid(d) && DistinctValues(d) && HasKey(d, k)
    ensures FindKey(d, Get(d, k)) == Some(k)
  {
    var i := IndexOf(d, k);
    var r := FindKey(d, d[i].1);
    var j :| 0 <= j < |d| && d[j] == (r.value, d[i].1);
    assert j == i;
  }

  /** `del d[k]` keeps the values distinct. */
  lemma DeleteKeepsDistinctValues<K, V>(d: Dict<K, V>, k: K)
    requires DistinctValues(d)
    ensures DistinctValues(Delete(d, k))
  {
    if HasKey(d, k) {
      DeleteShape(d, k);
      var i := IndexOf(d, k);
      var r := Delete(d, k);
      forall a, b | 0 <= a < b < |r|
        ensures r[a].1 != r[b].1
      {
        assert r[a] == d[if a < i then a else a + 1];
        assert r[b] == d[if b < i then b else b + 1];
      }
    }
  }

  /** `d[k] = v` with a value not held yet: values stay distinct, v is now
      held, and the only value that goes is the one k held before. */
  lemma PutNewValue<K, V>(d: Dict<K, V>, k: K, v: V)
    requires DistinctValues(d) && !HasValue(d, v)
    ensures DistinctValues(Put(d, k, v))
    ensures forall x :: HasValue(Put(d, k, v), x) <==>
      x == v || (HasValue(d, x) && !(HasKey(d, k) && x == Get(d, k)))
  {
    var r := Put(d, k, v);
    var p := if HasKey(d, k) then IndexOf(d, k) else |d|;
    assert r[p] == (k, v);
    assert forall j :: 0 <= j < |r| && j != p ==> r[j] == d[j];
    forall x | HasValue(r, x) && x != v
      ensures HasValue(d, x) && !(HasKey(d, k) && x == Get(d, k))
    {
      var j :| 0 <= j < |r| && r[j].1 == x;
      assert d[j].1 == x;
    }
    forall x | HasValue(d, x) && !(HasKey(d, k) && x == Get(d, k))
      ensures HasValue(r, x)
    {
      var j :| 0 <= j < |d| && d[j].1 == x;
      assert r[j].1 == x;
    }
  }
}
