/**
 * Tombstone-freedom, stated exactly: the set of occupied slots is a function of the keys, the
 * hash and the capacity. Whatever was inserted and deleted on the way leaves no trace in it.
 */
module SlotOccupancy {
  import opened Basics
  import opened FlatMaps

  /** The slot `x` steps before `p`. */
  function Back(p: nat, x: nat, cap: nat): (r: nat)
    requires p < cap && x <= cap
    ensures r < cap
  {
    if x <= p then p - x else p + cap - x
  }

  /** More values than places: two of them share one. */
  lemma {:induction false} Pigeonhole(ys: seq<nat>, n: nat) returns (i: nat, j: nat)
    requires |ys| > n && forall x | 0 <= x < |ys| :: ys[x] < n
    ensures i < j < |ys| && ys[i] == ys[j]
    decreases n
  {
    var last := |ys| - 1;
    if k :| 0 <= k < last && ys[k] == ys[last] {
      return k, last;
    }
    // Renaming the top value to the last one leaves a shorter list over fewer values.
    var zs := seq(last, x requires 0 <= x < last => if ys[x] == n - 1 then ys[last] else ys[x]);
    assert forall x | 0 <= x < last :: zs[x] < n - 1;
    i, j := Pigeonhole(zs, n - 1);
  }

  /** The occupied stretch that ends at `p`, back to the nearest free slot. */
  lemma OccupiedStretch<V>(s: seq<Slot<V>>, p: nat) returns (d: nat)
    requires p < |s| && s[p].Some? && Occupied(s) < |s|
    ensures d + 1 < |s| && s[Back(p, d + 1, |s|)].None?
    ensures forall x: nat | x <= d :: s[Back(p, x, |s|)].Some?
  {
    var free := FreeSlotExists(s);
    var far := Distance(free, p, |s|);
    assert Back(p, far, |s|) == free;
    d := 0;
    while s[Back(p, d + 1, |s|)].Some?
      invariant d < far
      invariant forall x: nat | x <= d :: s[Back(p, x, |s|)].Some?
      decreases far - d
    {
      d := d + 1;
    }
  }

  /** No free slot lies between a key's ideal slot and the slot that holds it. */
  lemma ChainAvoidsFree<V>(s: seq<Slot<V>>, hasher: Bytes -> nat, m: map<Bytes, V>, q: nat, k: Bytes, f: nat)
    requires Table(s, hasher, m) && Holds(s, q, k) && f < |s| && s[f].None?
    ensures q != f && !InArc(Ideal(hasher(k), |s|), q, f)
  {
  }

  /** A chain that starts inside the stretch and may not cross `p` ends inside it, before `p`. */
  lemma EndsInside(cap: nat, p: nat, d: nat, x: nat, ideal: nat, r: nat)
    requires p < cap && d + 1 < cap && x <= d && ideal < cap && r < cap
    requires !InArc(ideal, Back(p, x, cap), Back(p, d + 1, cap))
    requires r != p && !InArc(ideal, r, p)
    ensures 1 <= Distance(r, p, cap) <= d && Back(p, Distance(r, p, cap), cap) == r
  {
  }

  /** A key of the stretch, looked up in the other table, lies inside the stretch and before `p`. */
  lemma PlaceInOther<V, W>(s: seq<Slot<V>>, t: seq<Slot<W>>, hasher: Bytes -> nat,
                           m: map<Bytes, V>, w: map<Bytes, W>, p: nat, d: nat, x: nat) returns (y: nat)
    requires |s| == |t| && Table(s, hasher, m) && Table(t, hasher, w) && m.Keys == w.Keys
    requires p < |s| && d + 1 < |s| && x <= d
    requires s[Back(p, d + 1, |s|)].None? && s[Back(p, x, |s|)].Some? && t[p].None?
    ensures y < d && Holds(t, Back(p, y + 1, |t|), s[Back(p, x, |s|)].value.key)
  {
    hide Chained;
    var q := Back(p, x, |s|);
    var k := s[q].value.key;
    assert k in w;
    var r :| Holds(t, r, k);
    hide Stores;
    ChainAvoidsFree(s, hasher, m, q, k, Back(p, d + 1, |s|));
    ChainAvoidsFree(t, hasher, w, r, k, p);
    EndsInside(|s|, p, d, x, Ideal(hasher(k), |s|), r);
    y := Distance(r, p, |s|) - 1;
  }

  lemma OneSlotPerKey<V>(s: seq<Slot<V>>, hasher: Bytes -> nat, m: map<Bytes, V>, p: nat, q: nat, k: Bytes)
    requires Stores(s, hasher, m) && Holds(s, p, k) && Holds(s, q, k)
    ensures p == q
  {
  }

  /** The key `x` steps before `p` in `s` sits `y + 1` steps before `p` in `t`. */
  ghost predicate Lands<V, W>(s: seq<Slot<V>>, t: seq<Slot<W>>, p: nat, x: nat, y: nat) {
    && |s| == |t| && p < |s| && x < |s| && y < |s| && s[Back(p, x, |s|)].Some?
    && Holds(t, Back(p, y + 1, |t|), s[Back(p, x, |s|)].value.key)
  }

  lemma {:induction false} PlacesInOther<V, W>(s: seq<Slot<V>>, t: seq<Slot<W>>, hasher: Bytes -> nat,
                                               m: map<Bytes, V>, w: map<Bytes, W>, p: nat, d: nat, n: nat)
    returns (ys: seq<nat>)
    requires |s| == |t| && Table(s, hasher, m) && Table(t, hasher, w) && m.Keys == w.Keys
    requires p < |s| && d + 1 < |s| && n <= d + 1
    requires s[Back(p, d + 1, |s|)].None? && t[p].None?
    requires forall x: nat | x <= d :: s[Back(p, x, |s|)].Some?
    ensures |ys| == n && forall x | 0 <= x < n :: ys[x] < d && Lands(s, t, p, x, ys[x])
  {
    hide Table, Holds;
    if n == 0 {
      ys := [];
    } else {
      ys := PlacesInOther(s, t, hasher, m, w, p, d, n - 1);
      var y := PlaceInOther(s, t, hasher, m, w, p, d, n - 1);
      ys := ys + [y];
    }
  }

  /** One direction: a slot taken in one table is taken in the other. */
  lemma {:induction false} OccupiedInBoth<V, W>(s: seq<Slot<V>>, t: seq<Slot<W>>, hasher: Bytes -> nat,
                             m: map<Bytes, V>, w: map<Bytes, W>, p: nat)
    requires |s| == |t| && Table(s, hasher, m) && Table(t, hasher, w) && m.Keys == w.Keys
    requires Occupied(s) < |s| && p < |s| && s[p].Some?
    ensures t[p].Some?
  {
    hide Chained, Stores, Occupied;
    if t[p].None? {
      var d := OccupiedStretch(s, p);
      var ys := PlacesInOther(s, t, hasher, m, w, p, d, d + 1);
      var i, j := Pigeonhole(ys, d);
      assert Lands(s, t, p, i, ys[i]) && Lands(s, t, p, j, ys[j]);
      OneSlotPerKey(s, hasher, m, Back(p, i, |s|), Back(p, j, |s|), s[Back(p, i, |s|)].value.key);
      assert false;
    }
  }

  /**
   * History independence. Two valid tables of one capacity that hold the same keys under the same
   * hash occupy exactly the same slots, however each was reached.
   */
  lemma {:induction false} OccupancyIsHistoryIndependent<V, W>(s: seq<Slot<V>>, t: seq<Slot<W>>, hasher: Bytes -> nat,
                                            m: map<Bytes, V>, w: map<Bytes, W>)
    requires |s| == |t| && Table(s, hasher, m) && Table(t, hasher, w) && m.Keys == w.Keys
    requires Occupied(s) < |s| && Occupied(t) < |t|
    ensures forall p | 0 <= p < |s| :: s[p].Some? <==> t[p].Some?
  {
    forall p | 0 <= p < |s| ensures s[p].Some? <==> t[p].Some? {
      if s[p].Some? {
        OccupiedInBoth(s, t, hasher, m, w, p);
      }
      if t[p].Some? {
        OccupiedInBoth(t, s, hasher, w, m, p);
      }
    }
  }

  /** The same for any two live maps: equal capacity, hash and key set fix the occupied slots. */
  lemma ChurnLeavesNoTrace<V, W>(a: FlatMap<V>, b: FlatMap<W>)
    requires a.Valid() && b.Valid() && a.hasher == b.hasher
    requires a.slots.Length == b.slots.Length && a.contents.Keys == b.contents.Keys
    ensures forall p | 0 <= p < a.slots.Length :: a.slots[p].Some? <==> b.slots[p].Some?
  {
    if a.slots.Length > 0 {
      OccupancyIsHistoryIndependent(a.slots[..], b.slots[..], a.hasher, a.contents, b.contents);
    }
  }
}
