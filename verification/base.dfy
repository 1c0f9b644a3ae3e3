/** Shared vocabulary: identifiers, the Option/Result wrappers that stand in
    for Java's `null` returns and thrown exceptions, and the two map idioms
    the managers use: a run of `put` calls, and a search over a map's values. */
module Base {

  /** A `java.util.UUID`; only equality is ever used. */
  type Uuid = nat

  /** A value or Java's `null`. */
  datatype Option<+T> = None | Some(value: T)

  /** A normal return, or the exception the Java code would throw. */
  datatype Result<+T, +E> = Ok(value: T) | Err(error: E)

  /** The map obtained by applying `m.put(k, v)` for every entry `(k, v)` of
      `entries`, in order: later puts overwrite earlier ones. */
  function PutAll<K(!new), V>(m: map<K, V>, entries: seq<(K, V)>): (r: map<K, V>)
    ensures KeysAfterPuts(m, entries, r)
    ensures LastPutWins(entries, r)
    ensures UntouchedKeep(m, entries, r)
    decreases |entries|
  {
    if |entries| == 0 then m
    else
      var init := entries[..|entries| - 1];
      var last := entries[|entries| - 1];
      var prev := PutAll(m, init);
      PutStep(m, entries, prev);
      prev[last.0 := last.1]
  }

  /** One more put is one more map update. */
  lemma PutAllSnoc<K(!new), V>(m: map<K, V>, entries: seq<(K, V)>, last: (K, V))
    ensures PutAll(m, entries + [last]) == PutAll(m, entries)[last.0 := last.1]
  {
    assert (entries + [last])[..|entries|] == entries;
  }

  /** The keys after the puts: the old keys and every key put. */
  ghost predicate KeysAfterPuts<K(!new), V>(m: map<K, V>, entries: seq<(K, V)>, r: map<K, V>)
  {
    forall k :: k in r <==> k in m || exists i :: 0 <= i < |entries| && entries[i].0 == k
  }

  /** The value under each key put is the one put last. */
  ghost predicate LastPutWins<K(!new), V>(entries: seq<(K, V)>, r: map<K, V>)
  {
    forall i :: 0 <= i < |entries| && LastPut(entries, i) ==> entries[i].0 in r && r[entries[i].0] == entries[i].1
  }

  /** Keys never put keep their old value. */
  ghost predicate UntouchedKeep<K(!new), V>(m: map<K, V>, entries: seq<(K, V)>, r: map<K, V>)
  {
    forall k :: k in m && NeverPut(entries, k) ==> k in r && r[k] == m[k]
  }

  /** One more put preserves the three facts `PutAll` promises. */
  lemma PutStep<K(!new), V>(m: map<K, V>, entries: seq<(K, V)>, prev: map<K, V>)
    requires |entries| > 0
    requires var init := entries[..|entries| - 1];
             KeysAfterPuts(m, init, prev) && LastPutWins(init, prev) && UntouchedKeep(m, init, prev)
    ensures var last := entries[|entries| - 1];
            && KeysAfterPuts(m, entries, prev[last.0 := last.1])
            && LastPutWins(entries, prev[last.0 := last.1])
            && UntouchedKeep(m, entries, prev[last.0 := last.1])
  {
    var init := entries[..|entries| - 1];
    var last := entries[|entries| - 1];
    assert entries == init + [last];
    PutStepKeys(m, init, last, prev);
    PutStepValues(init, last, prev);
    PutStepUntouched(m, init, last, prev);
  }

  lemma PutStepKeys<K(!new), V>(m: map<K, V>, init: seq<(K, V)>, last: (K, V), prev: map<K, V>)
    requires KeysAfterPuts(m, init, prev)
    ensures KeysAfterPuts(m, init + [last], prev[last.0 := last.1])
  {
    var entries := init + [last];
    var r := prev[last.0 := last.1];
    forall k
      ensures k in r <==> k in m || exists i :: 0 <= i < |entries| && entries[i].0 == k
    {
      if exists i :: 0 <= i < |init| && init[i].0 == k {
        var i :| 0 <= i < |init| && init[i].0 == k;
        assert entries[i].0 == k;
      }
      if k == last.0 {
        assert entries[|init|].0 == k;
      }
      if exists i :: 0 <= i < |entries| && entries[i].0 == k {
        var i :| 0 <= i < |entries| && entries[i].0 == k;
        if i < |init| {
          assert init[i].0 == k;
        }
      }
    }
  }

  lemma PutStepValues<K(!new), V>(init: seq<(K, V)>, last: (K, V), prev: map<K, V>)
    requires LastPutWins(init, prev)
    ensures LastPutWins(init + [last], prev[last.0 := last.1])
  {
    var entries := init + [last];
    forall i | 0 <= i < |entries| && LastPut(entries, i)
      ensures entries[i].0 in prev[last.0 := last.1] && prev[last.0 := last.1][entries[i].0] == entries[i].1
    {
      if i < |init| {
        assert entries[|init|] == last;
        assert forall j :: 0 <= j < |init| ==> entries[j] == init[j];
        assert LastPut(init, i);
      }
    }
  }

  lemma PutStepUntouched<K(!new), V>(m: map<K, V>, init: seq<(K, V)>, last: (K, V), prev: map<K, V>)
    requires UntouchedKeep(m, init, prev)
    ensures UntouchedKeep(m, init + [last], prev[last.0 := last.1])
  {
    var entries := init + [last];
    forall k | k in m && NeverPut(entries, k)
      ensures k in prev[last.0 := last.1] && prev[last.0 := last.1][k] == m[k]
    {
      assert entries[|init|].0 != k;
      assert forall j :: 0 <= j < |init| ==> entries[j] == init[j];
      assert NeverPut(init, k);
    }
  }

  /** No entry after position `i` puts the same key again. */
  predicate LastPut<K(==), V>(entries: seq<(K, V)>, i: nat)
    requires i < |entries|
  {
    forall j :: i < j < |entries| ==> entries[j].0 != entries[i].0
  }

  /** No entry puts key `k`. */
  predicate NeverPut<K(==), V>(entries: seq<(K, V)>, k: K)
  {
    forall i :: 0 <= i < |entries| ==> entries[i].0 != k
  }

  /** Iterates over the entries of `m` in an unspecified order, as a loop over
      a `HashMap`'s `values()` does, and returns the key of the first value
      that satisfies `matches`, or None when no value does. */
  method FindKey<K, V>(m: map<K, V>, matches: V -> bool) returns (r: Option<K>)
    ensures r.Some? ==> r.value in m && matches(m[r.value])
    ensures r.None? <==> forall k :: k in m ==> !matches(m[k])
  {
    var todo := m.Keys;
    while todo != {}
      invariant todo <= m.Keys
      invariant forall k :: k in m && k !in todo ==> !matches(m[k])
      decreases todo
    {
      var k :| k in todo;
      if matches(m[k]) {
        return Some(k);
      }
      todo := todo - {k};
    }
    return None;
  }
}
