/** Python dictionaries whose iteration order matters, as association lists.
    Keys are kept unique by `Put`, which updates an existing entry in place
    and appends a new one at the end -- exactly how a `dict` behaves. */
module Assoc {
  import opened Base

  type Assoc<K, V> = seq<(K, V)>

  /** `list(d.keys())`. */
  function Keys<K, V>(a: Assoc<K, V>): (ks: seq<K>)
    ensures |ks| == |a|
    decreases |a|
  {
    if |a| == 0 then [] else [a[0].0] + Keys(a[1..])
  }

  lemma {:induction false} KeysAt<K, V>(a: Assoc<K, V>, i: nat)
    requires i < |a|
    ensures Keys(a)[i] == a[i].0
    decreases i
  {
    if i > 0 {
      KeysAt(a[1..], i - 1);
    }
  }

  predicate HasKey<K(==), V>(a: Assoc<K, V>, k: K) {
    exists i | 0 <= i < |a| :: a[i].0 == k
  }

  /** `k in d.keys()` is `k in d`. */
  lemma KeysIn<K, V>(a: Assoc<K, V>, k: K)
    ensures k in Keys(a) <==> HasKey(a, k)
  {
    if k in Keys(a) {
      var i :| 0 <= i < |Keys(a)| && Keys(a)[i] == k;
      KeysAt(a, i);
    }
    if HasKey(a, k) {
      var i :| 0 <= i < |a| && a[i].0 == k;
      KeysAt(a, i);
    }
  }

  /** The invariant every Python dict satisfies. */
  predicate UniqueKeys<K(==), V>(a: Assoc<K, V>) {
    forall i, j | 0 <= i < j < |a| :: a[i].0 != a[j].0
  }

  /** `d.get(k)`: the value of the first entry with key `k`. */
  function Get<K(==), V>(a: Assoc<K, V>, k: K): (r: Option<V>)
    ensures r.None? <==> !HasKey(a, k)
    ensures r.Some? ==> exists i | 0 <= i < |a| :: a[i] == (k, r.value)
  {
    if |a| == 0 then None
    else if a[0].0 == k then Some(a[0].1)
    else
      var r := Get(a[1..], k);
      assert r.Some? ==> exists i | 0 <= i < |a| :: a[i] == (k, r.value) by {
        if r.Some? {
          var i :| 0 <= i < |a[1..]| && a[1..][i] == (k, r.value);
          assert a[i + 1] == (k, r.value);
        }
      }
      r
  }

  /** With unique keys, the value stored at position `i` is the one `Get` finds. */
  lemma {:induction false} GetAt<K, V>(a: Assoc<K, V>, i: nat)
    requires UniqueKeys(a) && i < |a|
    ensures Get(a, a[i].0) == Some(a[i].1)
    decreases |a|
  {
    if i > 0 {
      assert a[0].0 != a[i].0;
      assert a[1..][i - 1] == a[i];
      GetAt(a[1..], i - 1);
    }
  }

  /** With unique keys, an entry is present exactly when `Get` finds its value. */
  lemma InIffGet<K, V>(a: Assoc<K, V>, k: K, v: V)
    requires UniqueKeys(a)
    ensures (k, v) in a <==> Get(a, k) == Some(v)
  {
    if (k, v) in a {
      var i :| 0 <= i < |a| && a[i] == (k, v);
      GetAt(a, i);
    }
  }

  /** Dropping the first entry keeps keys unique, and its key is not among the rest. */
  lemma UniqueTail<K, V>(a: Assoc<K, V>)
    requires UniqueKeys(a) && |a| > 0
    ensures UniqueKeys(a[1..]) && !HasKey(a[1..], a[0].0)
  {
    forall i | 0 <= i < |a| - 1 ensures a[1..][i].0 != a[0].0 {
      assert a[1..][i] == a[i + 1];
    }
  }

  /** `d[k] = v`: update in place, or append a new entry. */
  function Put<K(==,!new), V>(a: Assoc<K, V>, k: K, v: V): (r: Assoc<K, V>)
    ensures Get(r, k) == Some(v)
    ensures forall k' | k' != k :: Get(r, k') == Get(a, k')
  {
    if |a| == 0 then [(k, v)]
    else if a[0].0 == k then [(k, v)] + a[1..]
    else [a[0]] + Put(a[1..], k, v)
  }

  lemma HasKeyTail<K, V>(a: Assoc<K, V>, k: K)
    requires |a| > 0 && a[0].0 != k
    ensures HasKey(a, k) <==> HasKey(a[1..], k)
  {
    if HasKey(a, k) {
      var i :| 0 <= i < |a| && a[i].0 == k;
      assert a[1..][i - 1].0 == k;
    }
    if HasKey(a[1..], k) {
      var i :| 0 <= i < |a[1..]| && a[1..][i].0 == k;
      assert a[i + 1].0 == k;
    }
  }

  /** `Put` keeps the key order: an existing key stays where it is, a new one
      goes last. */
  lemma {:induction false} PutKeys<K(!new), V>(a: Assoc<K, V>, k: K, v: V)
    ensures HasKey(a, k) ==> Keys(Put(a, k, v)) == Keys(a)
    ensures !HasKey(a, k) ==> Keys(Put(a, k, v)) == Keys(a) + [k]
    decreases |a|
  {
    if |a| > 0 {
      var r := Put(a, k, v);
      assert Keys(a) == [a[0].0] + Keys(a[1..]);
      if a[0].0 == k {
        assert HasKey(a, k);
        assert r[1..] == a[1..];
        assert Keys(r) == [k] + Keys(r[1..]);
      } else {
        HasKeyTail(a, k);
        PutKeys(a[1..], k, v);
        assert r[1..] == Put(a[1..], k, v);
        assert Keys(r) == [a[0].0] + Keys(r[1..]);
        if !HasKey(a, k) {
          assert Keys(r) == [a[0].0] + (Keys(a[1..]) + [k]);
        }
      }
    }
  }

  /** `Put` keeps keys unique, as a Python dict does. */
  lemma PutUnique<K(!new), V>(a: Assoc<K, V>, k: K, v: V)
    requires UniqueKeys(a)
    ensures UniqueKeys(Put(a, k, v))
  {
    PutKeys(a, k, v);
    var r := Put(a, k, v);
    forall i, j | 0 <= i < j < |r| ensures r[i].0 != r[j].0 {
      KeysAt(r, i); KeysAt(r, j);
      if i < |a| { KeysAt(a, i); }
      if j < |a| { KeysAt(a, j); }
      if !HasKey(a, k) && j == |a| {
        assert Keys(r)[j] == k;
        assert Keys(r)[i] == Keys(a)[i] == a[i].0;
      } else {
        assert Keys(r)[i] == Keys(a)[i] == a[i].0;
        assert Keys(r)[j] == Keys(a)[j] == a[j].0;
      }
    }
  }

  /** Every entry after `Put` is the new one or an old one. */
  lemma {:induction false} PutMembers<K(!new), V>(a: Assoc<K, V>, k: K, v: V)
    ensures forall x | x in Put(a, k, v) :: x == (k, v) || x in a
    decreases |a|
  {
    if |a| > 0 && a[0].0 != k {
      PutMembers(a[1..], k, v);
      assert Put(a, k, v) == [a[0]] + Put(a[1..], k, v);
    }
  }

  /** A value `Get` finds is stored in the list. */
  lemma GetIn<K, V>(a: Assoc<K, V>, k: K)
    requires HasKey(a, k)
    ensures (k, Get(a, k).value) in a
  {
    var i :| 0 <= i < |a| && a[i] == (k, Get(a, k).value);
  }

  /** The value at `k`, or `d` when absent. */
  function GetOr<K(==), V>(a: Assoc<K, V>, k: K, d: V): V {
    Get(a, k).GetOr(d)
  }

  /** The entries of a dict as a Dafny map (first entry wins, which with
      unique keys is the only one). */
  function ToMap<K(==,!new), V>(a: Assoc<K, V>): (m: map<K, V>)
    ensures forall k :: k in m <==> HasKey(a, k)
    ensures forall k | k in m :: Get(a, k) == Some(m[k])
    decreases |a|
  {
    if |a| == 0 then map[]
    else
      var m := ToMap(a[1..]);
      assert forall k :: HasKey(a, k) <==> k == a[0].0 || HasKey(a[1..], k) by {
        forall k | HasKey(a, k) && k != a[0].0 ensures HasKey(a[1..], k) {
          var i :| 0 <= i < |a| && a[i].0 == k;
          assert a[1..][i - 1].0 == k;
        }
        forall k | HasKey(a[1..], k) ensures HasKey(a, k) {
          var i :| 0 <= i < |a[1..]| && a[1..][i].0 == k;
          assert a[i + 1].0 == k;
        }
      }
      m[a[0].0 := a[0].1]
  }
}
