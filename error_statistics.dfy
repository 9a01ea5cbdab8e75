/** `ErrorStatistics`, the snapshot record filled by `getErrorStats`, and
    the grouping (`groupingBy { … }.eachCount()`) it is built with. */
module ErrorStatistics {
  import opened Text
  import opened ErrorCategories
  import opened ErrorContexts

  datatype ErrorStatistics = ErrorStatistics(
    totalErrors: int,
    byCategory: map<ErrorCategory, nat>,
    bySeverity: map<ErrorSeverity, nat>,
    byComponent: map<string, nat>,
    recentErrors: seq<seq<(string, Value)>>)

  /** `keys.groupingBy { it }.eachCount()`: each key that occurs, with the
      number of its occurrences. */
  function Tally<K(!new)>(keys: seq<K>): (m: map<K, nat>)
    ensures forall k :: k in m <==> k in keys
    ensures forall k :: k in m ==> m[k] == multiset(keys)[k]
    decreases |keys|
  {
    if keys == [] then map[]
    else
      var init, x := keys[..|keys| - 1], keys[|keys| - 1];
      assert keys == init + [x];
      var m := Tally(init);
      m[x := (if x in m then m[x] else 0) + 1]
  }

  /** The sum of a map's values. */
  ghost function MapSum<K>(m: map<K, nat>): nat
    decreases |m|
  {
    if m == map[] then 0
    else
      var k :| k in m;
      m[k] + MapSum(m - {k})
  }

  /** The sum does not depend on which key is taken out first. */
  lemma {:induction false} MapSumRemove<K>(m: map<K, nat>, k: K)
    requires k in m
    ensures MapSum(m) == m[k] + MapSum(m - {k})
    decreases |m|
  {
    var j :| j in m && MapSum(m) == m[j] + MapSum(m - {j});
    if j != k {
      var mj, mk := m - {j}, m - {k};
      assert k in mj && j in mk;
      MapSumRemove(mj, k);
      MapSumRemove(mk, j);
      assert mj - {k} == mk - {j};
    }
  }

  /** Setting one key changes the sum by the difference of its values. */
  lemma MapSumUpdate<K>(m: map<K, nat>, x: K, v: nat)
    ensures MapSum(m[x := v]) + (if x in m then m[x] else 0) == MapSum(m) + v
  {
    var u := m[x := v];
    MapSumRemove(u, x);
    assert u - {x} == m - {x};
    if x in m {
      MapSumRemove(m, x);
    } else {
      assert m - {x} == m;
    }
  }

  /** The counts of a tally add up to the number of keys tallied. */
  lemma {:induction false} TallySum<K(!new)>(keys: seq<K>)
    ensures MapSum(Tally(keys)) == |keys|
    decreases |keys|
  {
    if keys != [] {
      var init, x := keys[..|keys| - 1], keys[|keys| - 1];
      assert keys == init + [x];
      TallySum(init);
      var m := Tally(init);
      MapSumUpdate(m, x, (if x in m then m[x] else 0) + 1);
    }
  }
}
