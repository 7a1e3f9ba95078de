/** A JavaScript `Map` filled by a sequence of `set(key, value)` calls, as a
    Dafny map: a later call overwrites an earlier one with the same key. */
module JsMap {

  /** The map after `set(k, v)` for each entry `(k, v)` in order. */
  function FromEntries<K(==), V>(entries: seq<(K, V)>): map<K, V>
    decreases |entries|
  {
    if entries == [] then map[]
    else
      var last := entries[|entries| - 1];
      FromEntries(entries[..|entries| - 1])[last.0 := last.1]
  }

  /** Entry `i` is the last one with key `key`. */
  predicate LastWithKey<K(==), V>(entries: seq<(K, V)>, i: nat, key: K) {
    && i < |entries|
    && entries[i].0 == key
    && forall j :: i < j < |entries| ==> entries[j].0 != key
  }

  /** The keys of the map are exactly the keys that were set. */
  lemma {:induction false} FromEntriesKeys<K, V>(entries: seq<(K, V)>)
    ensures FromEntries(entries).Keys == set j | 0 <= j < |entries| :: entries[j].0
    decreases |entries|
  {
    if entries != [] {
      var n := |entries| - 1;
      var init := entries[..n];
      FromEntriesKeys(init);
      forall k | k in FromEntries(entries).Keys
        ensures exists j :: 0 <= j < |entries| && entries[j].0 == k
      {
        if k != entries[n].0 {
          var j :| 0 <= j < |init| && init[j].0 == k;
          assert entries[j] == init[j];
        }
      }
      forall j | 0 <= j < |entries| ensures entries[j].0 in FromEntries(entries) {
        if j < n {
          assert init[j] == entries[j];
        }
      }
    }
  }

  /** Last write wins: a key holds the value of the last entry with that key. */
  lemma {:induction false} FromEntriesLastWins<K, V>(entries: seq<(K, V)>, i: nat, key: K)
    requires LastWithKey(entries, i, key)
    ensures key in FromEntries(entries) && FromEntries(entries)[key] == entries[i].1
    decreases |entries|
  {
    var n := |entries| - 1;
    if i < n {
      var init := entries[..n];
      assert init[i] == entries[i];
      forall j | i < j < |init| ensures init[j].0 != key {
        assert init[j] == entries[j];
      }
      FromEntriesLastWins(init, i, key);
    }
  }

  /** An entry with another key has no effect on `key`, wherever it stands. */
  lemma {:induction false} OtherKeyIrrelevant<K, V>(a: seq<(K, V)>, e: (K, V), b: seq<(K, V)>, key: K)
    requires e.0 != key
    ensures key in FromEntries(a + [e] + b) <==> key in FromEntries(a + b)
    ensures key in FromEntries(a + b) ==> FromEntries(a + [e] + b)[key] == FromEntries(a + b)[key]
    decreases |b|
  {
    if b == [] {
      assert a + [e] + b == a + [e];
      assert (a + [e])[..|a|] == a;
      assert a + b == a;
    } else {
      var init := b[..|b| - 1];
      OtherKeyIrrelevant(a, e, init, key);
      assert (a + [e] + b)[..|a + [e] + b| - 1] == a + [e] + init;
      assert (a + b)[..|a + b| - 1] == a + init;
    }
  }
}
