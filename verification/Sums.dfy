/** Sums over the values of a finite map, whatever the order of addition. */
module Sums {

  ghost function Total<K>(m: map<K, nat>): nat
    decreases |m|
  {
    if m == map[] then 0
    else
      var k :| k in m;
      assert (m - {k}).Keys == m.Keys - {k};
      m[k] + Total(m - {k})
  }

  /** Any element may be taken out first. */
  lemma {:induction false} TotalRemove<K>(m: map<K, nat>, k: K)
    requires k in m
    ensures Total(m) == m[k] + Total(m - {k})
    decreases |m|
  {
    var c :| c in m && Total(m) == m[c] + Total(m - {c});
    if c != k {
      assert (m - {c}).Keys == m.Keys - {c} && (m - {k}).Keys == m.Keys - {k};
      TotalRemove(m - {c}, k);
      TotalRemove(m - {k}, c);
      assert m - {c} - {k} == m - {k} - {c};
    }
  }

  /** Setting one value changes the total by the difference. */
  lemma TotalUpdate<K>(m: map<K, nat>, k: K, v: nat)
    ensures Total(m[k := v]) == Total(m) - (if k in m then m[k] else 0) + v
  {
    TotalRemove(m[k := v], k);
    assert m[k := v] - {k} == m - {k};
    if k in m {
      TotalRemove(m, k);
    } else {
      assert m - {k} == m;
    }
  }

  // ---------- maps and sets, one element at a time ----------

  lemma MergePut<K, X>(m: map<K, X>, d: map<K, X>, k: K, x: X)
    ensures (m + d)[k := x] == m + d[k := x]
  {
    assert (m + d)[k := x].Keys == (m + d[k := x]).Keys;
  }

  lemma MinusMore<K, X>(m: map<K, X>, gone: set<K>, k: K)
    ensures (m - gone) - {k} == m - (gone + {k})
  {
    assert ((m - gone) - {k}).Keys == (m - (gone + {k})).Keys;
  }

  /** One more name: how many of the names lie outside, and inside, a set. */
  lemma OneMore<K>(names: set<K>, k: K, base: set<K>)
    ensures |(names + {k}) - base| == |names - base| + (if k in names || k in base then 0 else 1)
    ensures |(names + {k}) * base| == |names * base| + (if k !in names && k in base then 1 else 0)
  {
    if k in names {
      assert names + {k} == names;
    } else if k in base {
      assert (names + {k}) - base == names - base;
      assert (names + {k}) * base == (names * base) + {k};
    } else {
      assert (names + {k}) - base == (names - base) + {k};
      assert (names + {k}) * base == names * base;
    }
  }

  lemma MinusNothing<K, X>(m: map<K, X>, names: set<K>)
    requires |names * m.Keys| == 0
    ensures m - names == m
  {
    assert forall k | k in m :: k !in names * m.Keys;
    assert (m - names).Keys == m.Keys;
  }

  lemma NothingMoves<K>(base: set<K>, names: set<K>)
    ensures |names - base| == 0 ==> base + names == base
    ensures |names * base| == 0 ==> base - names == base
  {
    if |names - base| == 0 {
      assert forall k | k in names :: k !in names - base;
    }
    if |names * base| == 0 {
      assert forall k | k in names :: k !in names * base;
    }
  }

  /** Every binding of `a` is one of `b`. */
  ghost predicate SubBindings<K, X>(a: map<K, X>, b: map<K, X>) {
    forall k | k in a :: k in b && a[k] == b[k]
  }

  /** Moving one more binding of `m` into `done`. */
  lemma MoveOver<K, X>(m: map<K, X>, done: map<K, X>, k: K)
    requires SubBindings(done, m) && k in m - done.Keys
    ensures SubBindings(done[k := m[k]], m)
    ensures m - done[k := m[k]].Keys == (m - done.Keys) - {k}
    ensures |(m - done.Keys) - {k}| < |m - done.Keys|
  {
    assert (m - done[k := m[k]].Keys).Keys == ((m - done.Keys) - {k}).Keys;
    assert ((m - done.Keys) - {k}).Keys == (m - done.Keys).Keys - {k};
  }

  lemma AllOver<K, X>(m: map<K, X>, done: map<K, X>)
    requires SubBindings(done, m) && m - done.Keys == map[]
    ensures done == m
  {
    forall k | k in m ensures k in done {
      assert k !in done ==> k in m - done.Keys;
    }
    assert done.Keys == m.Keys;
  }
}
