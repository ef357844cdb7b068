/** Dictionaries that remember the order of insertion. */
module Dicts {
  type Dict<K, V> = seq<(K, V)>

  ghost predicate DistinctKeys<K, V>(d: Dict<K, V>) {
    forall i, j | 0 <= i < j < |d| :: d[i].0 != d[j].0
  }

  function Keys<K, V>(d: Dict<K, V>): set<K> {
    set i | 0 <= i < |d| :: d[i].0
  }

  function Has<K(==), V>(d: Dict<K, V>, k: K): (b: bool)
    ensures b <==> k in Keys(d)
  {
    if d == [] then false else if d[0].0 == k then true else
      var b := Has(d[1..], k);
      assert b ==> exists i :: 0 <= i < |d[1..]| && d[1..][i].0 == k && d[i + 1].0 == k;
      assert !b ==> forall i | 1 <= i < |d| :: d[i].0 != k by {
        forall i | 1 <= i < |d| && !b ensures d[i].0 != k {
          assert d[1..][i - 1].0 in Keys(d[1..]);
        }
      }
      b
  }

  function Get<K(==), V>(d: Dict<K, V>, k: K): (v: V)
    requires Has(d, k)
    ensures exists i :: 0 <= i < |d| && d[i] == (k, v)
  {
    if d[0].0 == k then d[0].1 else
      var v := Get(d[1..], k);
      assert exists i :: 0 <= i < |d[1..]| && d[1..][i] == (k, v) && d[i + 1] == (k, v);
      v
  }

  /** An existing key keeps its place; a new one goes to the end. */
  function Put<K(==), V>(d: Dict<K, V>, k: K, v: V): (r: Dict<K, V>)
    ensures (forall i | 0 <= i < |d| :: d[i].0 != k) ==> r == d + [(k, v)]
  {
    if d == [] then [(k, v)] else if d[0].0 == k then [(k, v)] + d[1..] else
      assert d == [d[0]] + d[1..];
      [d[0]] + Put(d[1..], k, v)
  }

  function Remove<K(==), V>(d: Dict<K, V>, k: K): (r: Dict<K, V>)
    ensures Keys(r) <= Keys(d)
  {
    if d == [] then [] else
      assert d == [d[0]] + d[1..];
      assert Keys(d) == {d[0].0} + Keys(d[1..]) by { KeysCons(d[0], d[1..]); }
      var r := Remove(d[1..], k);
      if d[0].0 == k then r else
        assert Keys([d[0]] + r) == {d[0].0} + Keys(r) by { KeysCons(d[0], r); }
        [d[0]] + r
  }

  lemma KeysCons<K, V>(e: (K, V), d: Dict<K, V>)
    ensures Keys([e] + d) == {e.0} + Keys(d)
  {
    var c := [e] + d;
    forall k | k in {e.0} + Keys(d) ensures k in Keys(c) {
      if k == e.0 {
        assert c[0].0 == k;
      } else {
        var i :| 0 <= i < |d| && d[i].0 == k;
        assert c[i + 1].0 == k;
      }
    }
    forall k | k in Keys(c) ensures k in {e.0} + Keys(d) {
      var i :| 0 <= i < |c| && c[i].0 == k;
      if i > 0 {
        assert d[i - 1].0 == k;
      }
    }
  }

  lemma {:induction false} RemoveIsGone<K, V>(d: Dict<K, V>, k: K)
    ensures Keys(Remove(d, k)) == Keys(d) - {k}
    ensures forall x | x in Keys(d) && x != k :: Has(Remove(d, k), x) && Get(Remove(d, k), x) == Get(d, x)
  {
    if d != [] {
      RemoveIsGone(d[1..], k);
      KeysCons(d[0], d[1..]);
      assert d == [d[0]] + d[1..];
      KeysCons(d[0], Remove(d[1..], k));
    }
  }

  lemma {:induction false} PutGet<K, V>(d: Dict<K, V>, k: K, v: V)
    ensures Keys(Put(d, k, v)) == Keys(d) + {k}
    ensures Has(Put(d, k, v), k) && Get(Put(d, k, v), k) == v
    ensures forall x | x in Keys(d) && x != k :: Has(Put(d, k, v), x) && Get(Put(d, k, v), x) == Get(d, x)
  {
    if d == [] {
      assert Put(d, k, v)[0].0 == k;
    } else {
      assert d == [d[0]] + d[1..];
      KeysCons(d[0], d[1..]);
      if d[0].0 == k {
        KeysCons((k, v), d[1..]);
      } else {
        PutGet(d[1..], k, v);
        KeysCons(d[0], Put(d[1..], k, v));
        assert Put(d, k, v)[1..] == Put(d[1..], k, v);
      }
    }
  }
}
