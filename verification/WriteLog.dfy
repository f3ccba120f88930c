/** Sequences of writes to a key-value store, some of which do not take effect. */
module WriteLog {
  import opened Base

  /** A write that takes effect, or none. */
  type Write<K, V> = Option<(K, V)>

  function Put<K, V>(m: map<K, V>, w: Write<K, V>): map<K, V> {
    if w.Some? then m[w.value.0 := w.value.1] else m
  }

  /** The store after the first `n` writes of `log`. */
  function Apply<K, V>(m: map<K, V>, log: seq<Write<K, V>>, n: nat): map<K, V>
    requires n <= |log|
  {
    if n == 0 then m else Put(Apply(m, log, n - 1), log[n - 1])
  }

  /** `w` does not write to `k`. */
  predicate Spares<K(==), V>(w: Write<K, V>, k: K) {
    w.Some? ==> w.value.0 != k
  }

  lemma {:induction false} ApplyAdds<K, V>(m: map<K, V>, log: seq<Write<K, V>>, n: nat)
    requires n <= |log|
    ensures Apply(m, log, n) == m + Apply(map[], log, n)
  {
    if n > 0 {
      ApplyAdds(m, log, n - 1);
    }
  }

  lemma {:induction false} ApplySpares<K, V>(m: map<K, V>, log: seq<Write<K, V>>, n: nat, k: K)
    requires n <= |log| && forall i | 0 <= i < n :: Spares(log[i], k)
    ensures Lookup(Apply(m, log, n), k) == Lookup(m, k)
  {
    if n > 0 {
      ApplySpares(m, log, n - 1, k);
      assert Spares(log[n - 1], k);
    }
  }

  /** The last write to a key is what the store holds. */
  lemma {:induction false} ApplyHolds<K, V>(m: map<K, V>, log: seq<Write<K, V>>, n: nat, i: nat, k: K, v: V)
    requires i < n <= |log| && log[i] == Some((k, v))
    requires forall j | i < j < n :: Spares(log[j], k)
    ensures Lookup(Apply(m, log, n), k) == Some(v)
  {
    if i < n - 1 {
      ApplyHolds(m, log, n - 1, i, k, v);
      assert Spares(log[n - 1], k);
    }
  }

  /** Wherever `few` writes, `all` writes, to the same key. */
  ghost predicate Covers<K, V>(few: seq<Write<K, V>>, all: seq<Write<K, V>>) {
    |few| == |all| && forall i | 0 <= i < |few| && few[i].Some? :: all[i].Some? && all[i].value.0 == few[i].value.0
  }

  lemma {:induction false} CoveredKeys<K, V>(few: seq<Write<K, V>>, all: seq<Write<K, V>>, n: nat)
    requires Covers(few, all) && n <= |few|
    ensures Apply(map[], few, n).Keys <= Apply(map[], all, n).Keys
  {
    if n > 0 {
      CoveredKeys(few, all, n - 1);
    }
  }

  /** Writes that are covered by later ones leave no trace. */
  lemma CoveredVanish<K, V>(m: map<K, V>, few: seq<Write<K, V>>, all: seq<Write<K, V>>)
    requires Covers(few, all)
    ensures Apply(Apply(m, few, |few|), all, |all|) == Apply(m, all, |all|)
  {
    ApplyAdds(m, few, |few|);
    ApplyAdds(m, all, |all|);
    ApplyAdds(Apply(m, few, |few|), all, |all|);
    CoveredKeys(few, all, |few|);
  }

  /** Repeating a write in between changes nothing for the keys that come after it. */
  lemma PutAgain<K, V>(m: map<K, V>, k: K, v: V, few: seq<Write<K, V>>, all: seq<Write<K, V>>)
    requires Covers(few, all)
    ensures Apply(Apply(m[k := v], few, |few|)[k := v], all, |all|) == Apply(m[k := v], all, |all|)
  {
    ApplyAdds(m[k := v], few, |few|);
    ApplyAdds(m[k := v], all, |all|);
    ApplyAdds(Apply(m[k := v], few, |few|)[k := v], all, |all|);
    CoveredKeys(few, all, |few|);
  }
}
