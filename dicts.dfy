/** A Python dict filled by `d[key] = value` over a list of pairs, in order:
    the importers build their unit and metadata tables this way. */
module Dicts {

  /** The dictionary after storing the first `bound` pairs, in order; a
      later key overwrites an earlier one. */
  function StoreAll<K, V>(pairs: seq<(K, V)>, bound: nat): map<K, V>
    requires bound <= |pairs|
  {
    if bound == 0 then map[]
    else StoreAll(pairs, bound - 1)[pairs[bound - 1].0 := pairs[bound - 1].1]
  }

  /** The keys of `m` are the keys of the first `bound` pairs. */
  ghost predicate KeysFrom<K(!new), V>(pairs: seq<(K, V)>, bound: nat, m: map<K, V>)
    requires bound <= |pairs|
  {
    forall k :: k in m <==> exists i :: 0 <= i < bound && pairs[i].0 == k
  }

  /** No pair after `i` and before `bound` has the key of pair `i`. */
  ghost predicate LastOfKey<K, V>(pairs: seq<(K, V)>, i: nat, bound: nat)
    requires i < bound <= |pairs|
  {
    forall j :: i < j < bound ==> pairs[j].0 != pairs[i].0
  }

  /** Every key among the first `bound` pairs holds the value of its last pair. */
  ghost predicate ValuesFrom<K, V>(pairs: seq<(K, V)>, bound: nat, m: map<K, V>)
    requires bound <= |pairs|
  {
    forall i :: 0 <= i < bound && LastOfKey(pairs, i, bound) ==>
      pairs[i].0 in m && m[pairs[i].0] == pairs[i].1
  }

  /** `m` is what storing the first `bound` pairs leaves: one entry per
      distinct key, holding the value of the last pair with that key. */
  ghost predicate LastWins<K(!new), V>(pairs: seq<(K, V)>, bound: nat, m: map<K, V>)
    requires bound <= |pairs|
  {
    KeysFrom(pairs, bound, m) && ValuesFrom(pairs, bound, m)
  }

  lemma {:induction false} KeysStep<K(!new), V>(pairs: seq<(K, V)>, i: nat, m: map<K, V>)
    requires i < |pairs| && KeysFrom(pairs, i, m)
    ensures KeysFrom(pairs, i + 1, m[pairs[i].0 := pairs[i].1])
  {
    var next := m[pairs[i].0 := pairs[i].1];
    forall k
      ensures k in next <==> exists j :: 0 <= j < i + 1 && pairs[j].0 == k
    {
      if k in m {
        var j :| 0 <= j < i && pairs[j].0 == k;
        assert 0 <= j < i + 1 && pairs[j].0 == k;
      }
      if exists j :: 0 <= j < i + 1 && pairs[j].0 == k {
        var j :| 0 <= j < i + 1 && pairs[j].0 == k;
        if j < i {
          assert k in m;
        }
      }
    }
  }

  lemma {:induction false} ValuesStep<K, V>(pairs: seq<(K, V)>, i: nat, m: map<K, V>)
    requires i < |pairs| && ValuesFrom(pairs, i, m)
    ensures ValuesFrom(pairs, i + 1, m[pairs[i].0 := pairs[i].1])
  {
    var next := m[pairs[i].0 := pairs[i].1];
    forall j | 0 <= j < i + 1 && LastOfKey(pairs, j, i + 1)
      ensures pairs[j].0 in next && next[pairs[j].0] == pairs[j].1
    {
      if j < i {
        assert LastOfKey(pairs, j, i);
        assert pairs[j].0 != pairs[i].0;
      }
    }
  }

  lemma {:induction false} StoreAllKeys<K(!new), V>(pairs: seq<(K, V)>, bound: nat)
    requires bound <= |pairs|
    ensures KeysFrom(pairs, bound, StoreAll(pairs, bound))
  {
    if bound > 0 {
      var m := StoreAll(pairs, bound - 1);
      StoreAllKeys(pairs, bound - 1);
      KeysStep(pairs, bound - 1, m);
      assert StoreAll(pairs, bound) == m[pairs[bound - 1].0 := pairs[bound - 1].1];
    }
  }

  lemma {:induction false} StoreAllValues<K, V>(pairs: seq<(K, V)>, bound: nat)
    requires bound <= |pairs|
    ensures ValuesFrom(pairs, bound, StoreAll(pairs, bound))
  {
    if bound > 0 {
      var m := StoreAll(pairs, bound - 1);
      StoreAllValues(pairs, bound - 1);
      ValuesStep(pairs, bound - 1, m);
      assert StoreAll(pairs, bound) == m[pairs[bound - 1].0 := pairs[bound - 1].1];
    }
  }

  /** Storing pairs in order leaves exactly their keys, each holding the
      value of its last pair. */
  lemma {:induction false} StoreAllLastWins<K(!new), V>(pairs: seq<(K, V)>, bound: nat, m: map<K, V>)
    requires bound <= |pairs| && m == StoreAll(pairs, bound)
    ensures LastWins(pairs, bound, m)
  {
    StoreAllKeys(pairs, bound);
    StoreAllValues(pairs, bound);
  }
}
