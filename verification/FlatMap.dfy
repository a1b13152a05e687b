/** The flat open-addressing index: linear probing over a power-of-two ring, no tombstones. */
module FlatMaps {
  import opened Basics

  const LOAD_NUM := 7
  const LOAD_DEN := 8
  const MIN_CAP := 16

  datatype Entry<+V> = Entry(hash: nat, key: Bytes, value: V)

  type Slot<+V> = Option<Entry<V>>

  // ---------- the ring ----------

  /** `j` lies on the arc that starts at `a` and stops before `b`, walking upwards with wrap-around. */
  predicate InArc(a: int, b: int, j: int) {
    if a <= b then a <= j < b else j >= a || j < b
  }

  /** `x` lies on the ring in the half-open interval (a, b]. */
  predicate CyclicIn(a: nat, b: nat, x: nat) {
    if a < b then a < x && x <= b else x > a || x <= b
  }

  /** Steps from `a` up to `b` on a ring of `cap` slots. */
  function Distance(a: nat, b: nat, cap: nat): (d: nat)
    requires a < cap && b < cap
  {
    if a <= b then b - a else b + cap - a
  }

  /** The next slot on the ring: `(i + 1) & mask`. */
  function Next(i: nat, cap: nat): (r: nat)
    requires i < cap
    ensures r < cap
  {
    if i + 1 == cap then 0 else i + 1
  }

  /** The slot a hash asks for: `hash & mask`, on a ring whose size is a power of two. */
  function Ideal(hash: nat, cap: nat): (r: nat)
    requires cap > 0
    ensures r < cap
  {
    hash % cap
  }

  // ---------- powers of two ----------

  predicate IsPow2(n: nat) {
    n == 1 || (n > 0 && n % 2 == 0 && IsPow2(n / 2))
  }

  function NextPow2(p: nat, n: nat): (r: nat)
    requires IsPow2(p)
    ensures IsPow2(r) && r >= n && r >= p
    ensures r == p || r < 2 * n
    decreases n - p
  {
    if p >= n then p else assert (2 * p) / 2 == p; NextPow2(2 * p, n)
  }

  lemma {:induction false} LargePow2IsMultiple(n: nat)
    requires IsPow2(n) && n >= MIN_CAP
    ensures n % MIN_CAP == 0
  {
    if n >= 2 * MIN_CAP {
      LargePow2IsMultiple(n / 2);
    } else {
      var quarter := n / 2 / 2;
      assert IsPow2(quarter) && IsPow2(quarter / 2);
    }
  }

  lemma MinCapIsPow2()
    ensures IsPow2(MIN_CAP)
  {
    assert IsPow2(2) && IsPow2(4) && IsPow2(8);
  }

  /** The ring allocated for `cap` entries holds them below its growth threshold. */
  function CapacityFor(cap: nat): (raw: nat)
    ensures IsPow2(raw) && raw >= MIN_CAP && cap <= (raw / LOAD_DEN) * LOAD_NUM
  {
    var raw := Max(NextPow2(1, (cap * LOAD_DEN) / LOAD_NUM + 1), MIN_CAP);
    MinCapIsPow2();
    LargePow2IsMultiple(raw);
    raw
  }

  // ---------- what a table means ----------

  predicate Holds<V>(s: seq<Slot<V>>, i: nat, k: Bytes) {
    i < |s| && s[i].Some? && s[i].value.key == k
  }

  /** Every entry is reachable: all slots from its ideal one up to its own are occupied. */
  ghost predicate Chained<V>(s: seq<Slot<V>>) {
    forall p, j | 0 <= p < |s| && 0 <= j < |s| && s[p].Some?
                  && InArc(Ideal(s[p].value.hash, |s|), p, j) :: s[j].Some?
  }

  /** The occupied slots are exactly the bindings of `m`, each key once and under its own hash. */
  ghost predicate Stores<V>(s: seq<Slot<V>>, hasher: Bytes -> nat, m: map<Bytes, V>) {
    && (forall p | 0 <= p < |s| && s[p].Some? ::
          && s[p].value.hash == hasher(s[p].value.key)
          && s[p].value.key in m && m[s[p].value.key] == s[p].value.value)
    && (forall p, q | 0 <= p < q < |s| && s[p].Some? && s[q].Some? :: s[p].value.key != s[q].value.key)
    && (forall k | k in m :: exists p :: Holds(s, p, k))
  }

  ghost predicate Table<V>(s: seq<Slot<V>>, hasher: Bytes -> nat, m: map<Bytes, V>) {
    Chained(s) && Stores(s, hasher, m)
  }

  function Occupied<V>(s: seq<Slot<V>>): (n: nat)
    ensures n <= |s|
  {
    if s == [] then 0 else Occupied(s[..|s| - 1]) + (if s[|s| - 1].Some? then 1 else 0)
  }

  /** The entries in slot order. */
  function Yield<V>(s: seq<Slot<V>>): seq<(Bytes, V)> {
    if s == [] then []
    else
      var x := s[|s| - 1];
      Yield(s[..|s| - 1]) + (if x.Some? then [(x.value.key, x.value.value)] else [])
  }

  ghost predicate InSlot<V>(s: seq<Slot<V>>, e: (Bytes, V)) {
    exists p: nat :: Holds(s, p, e.0) && s[p].value.value == e.1
  }

  /** Each entry is yielded from a slot of its own. */
  lemma {:induction false} YieldIsEntries<V>(s: seq<Slot<V>>)
    requires forall p, q | 0 <= p < q < |s| && s[p].Some? && s[q].Some? :: s[p].value.key != s[q].value.key
    ensures |Yield(s)| == Occupied(s)
    ensures forall i | 0 <= i < |Yield(s)| :: InSlot(s, Yield(s)[i])
    ensures forall i, j | 0 <= i < j < |Yield(s)| :: Yield(s)[i].0 != Yield(s)[j].0
  {
    if s != [] {
      var init := s[..|s| - 1];
      YieldIsEntries(init);
      forall i | 0 <= i < |Yield(init)|
        ensures InSlot(s, Yield(init)[i]) && (s[|s| - 1].Some? ==> Yield(init)[i].0 != s[|s| - 1].value.key)
      {
        var p: nat :| Holds(init, p, Yield(init)[i].0) && init[p].value.value == Yield(init)[i].1;
        assert Holds(s, p, Yield(init)[i].0);
      }
      assert s[|s| - 1].Some? ==> Holds(s, |s| - 1, s[|s| - 1].value.key);
    }
  }

  lemma {:induction false} OccupiedUpdate<V>(s: seq<Slot<V>>, i: nat, x: Slot<V>)
    requires i < |s|
    ensures Occupied(s[i := x]) == Occupied(s) - (if s[i].Some? then 1 else 0) + (if x.Some? then 1 else 0)
  {
    var t := s[i := x];
    if i == |s| - 1 {
      assert t[..|s| - 1] == s[..|s| - 1];
    } else {
      assert t[..|s| - 1] == s[..|s| - 1][i := x];
      OccupiedUpdate(s[..|s| - 1], i, x);
    }
  }

  /** Every probe loop halts because of this slot. */
  lemma {:induction false} FreeSlotExists<V>(s: seq<Slot<V>>) returns (f: nat)
    requires Occupied(s) < |s|
    ensures f < |s| && s[f].None?
  {
    if s[|s| - 1].None? {
      f := |s| - 1;
    } else {
      f := FreeSlotExists(s[..|s| - 1]);
    }
  }

  lemma {:induction false} EmptyTable<V>(s: seq<Slot<V>>, hasher: Bytes -> nat, from: seq<Slot<V>>, m: map<Bytes, V>)
    requires m == map[] && forall i | 0 <= i < |s| :: s[i].None?
    ensures Table(s, hasher, m) && Occupied(s) == 0 && Moved(from, 0, m) && Occupied(from[..0]) == 0
  {
    AllFree(s);
  }

  lemma {:induction false} AllFree<V>(s: seq<Slot<V>>)
    requires forall i | 0 <= i < |s| :: s[i].None?
    ensures Occupied(s) == 0
  {
    if s != [] {
      AllFree(s[..|s| - 1]);
    }
  }

  // ---------- probing ----------

  /** A walk from `start` may stand at `i` without having met `k` or a free slot. */
  ghost predicate Probing<V>(s: seq<Slot<V>>, start: nat, i: nat, k: Bytes) {
    && start < |s| && i < |s|
    && forall j | 0 <= j < |s| && InArc(start, i, j) :: s[j].Some? && s[j].value.key != k
  }

  /** A walk that stands on a free slot has proved the key absent. */
  lemma AbsentAtFreeSlot<V>(s: seq<Slot<V>>, hasher: Bytes -> nat, m: map<Bytes, V>, i: nat, k: Bytes)
    requires |s| > 0 && Table(s, hasher, m)
    requires Probing(s, Ideal(hasher(k), |s|), i, k) && s[i].None?
    ensures k !in m
  {
    var start := Ideal(hasher(k), |s|);
    forall p: nat ensures !Holds(s, p, k) {
      assert p < |s| ==> p == i || InArc(start, p, i) || InArc(start, i, p);
    }
  }

  /** Placing an entry on the first free slot of its walk keeps every chain. */
  lemma PlaceAtFreeSlot<V>(s: seq<Slot<V>>, hasher: Bytes -> nat, m: map<Bytes, V>, i: nat, e: Entry<V>)
    requires |s| > 0 && Table(s, hasher, m)
    requires e.hash == hasher(e.key) && e.key !in m
    requires Probing(s, Ideal(e.hash, |s|), i, e.key) && s[i].None?
    ensures Table(s[i := Some(e)], hasher, m[e.key := e.value])
    ensures Occupied(s[i := Some(e)]) == Occupied(s) + 1
  {
    var t := s[i := Some(e)];
    OccupiedUpdate(s, i, Some(e));
    forall k | k in m ensures exists p :: Holds(t, p, k) {
      var p :| Holds(s, p, k);
      assert Holds(t, p, k);
    }
    assert Holds(t, i, e.key);
  }

  /** Overwriting the value in place changes one binding and nothing else. */
  lemma OverwriteInPlace<V>(s: seq<Slot<V>>, hasher: Bytes -> nat, m: map<Bytes, V>, i: nat, v: V)
    requires |s| > 0 && Table(s, hasher, m) && i < |s| && s[i].Some?
    ensures var e := s[i].value;
            var t := s[i := Some(e.(value := v))];
            Table(t, hasher, m[e.key := v]) && Occupied(t) == Occupied(s)
  {
    var e := s[i].value;
    var t := s[i := Some(e.(value := v))];
    OccupiedUpdate(s, i, Some(e.(value := v)));
    forall k | k in m ensures exists p :: Holds(t, p, k) {
      var p :| Holds(s, p, k);
      assert Holds(t, p, k);
    }
  }

  // ---------- backward shift ----------

  /**
   * The state of the repair loop. Only `hole` may break a chain, and every slot walked since
   * `hole` was made is occupied by an entry whose own chain avoids it.
   */
  ghost predicate Repairing<V>(s: seq<Slot<V>>, hole: nat, i: nat) {
    && hole < |s| && i < |s| && s[hole].None?
    && (forall p, j | 0 <= p < |s| && 0 <= j < |s| && s[p].Some? && j != hole
                      && InArc(Ideal(s[p].value.hash, |s|), p, j) :: s[j].Some?)
    && (hole != i ==>
          forall p | 0 <= p < |s| && CyclicIn(hole, i, p) ::
            s[p].Some? && !InArc(Ideal(s[p].value.hash, |s|), p, hole))
  }

  /** Taking an entry out of a valid table starts the repair. */
  lemma RemoveOpensHole<V>(s: seq<Slot<V>>, hasher: Bytes -> nat, m: map<Bytes, V>, i: nat)
    requires |s| > 0 && Table(s, hasher, m) && i < |s| && s[i].Some?
    ensures var t := s[i := None];
            && Repairing(t, i, i) && Stores(t, hasher, m - {s[i].value.key})
            && Occupied(t) == Occupied(s) - 1
  {
    var t := s[i := None];
    OccupiedUpdate(s, i, None);
    forall k | k in m && k != s[i].value.key ensures exists p :: Holds(t, p, k) {
      var p :| Holds(s, p, k);
      assert Holds(t, p, k);
    }
  }

  /** Reaching a free slot ends the repair: no chain crosses the hole any more. */
  lemma RepairDone<V>(s: seq<Slot<V>>, hole: nat, i: nat)
    requires Repairing(s, hole, i) && s[Next(i, |s|)].None?
    ensures Chained(s)
  {
    var n := Next(i, |s|);
    forall p | 0 <= p < |s| && s[p].Some? ensures !InArc(Ideal(s[p].value.hash, |s|), p, hole) {
      var a := Ideal(s[p].value.hash, |s|);
      assert InArc(a, p, hole) && (hole == i || !CyclicIn(hole, i, p)) && p != n ==> n == hole || InArc(a, p, n);
    }
  }

  /** Moving the entry back into the hole moves the defect to the slot it left. */
  lemma ShiftBack<V>(s: seq<Slot<V>>, hole: nat, i: nat)
    requires Repairing(s, hole, i)
    requires var n := Next(i, |s|); s[n].Some? && !CyclicIn(hole, n, Ideal(s[n].value.hash, |s|))
    ensures var n := Next(i, |s|); Repairing(s[hole := s[n]][n := None], n, n)
  {
    var n := Next(i, |s|);
    var t := s[hole := s[n]][n := None];
    forall p, j | 0 <= p < |t| && 0 <= j < |t| && t[p].Some? && j != n && InArc(Ideal(t[p].value.hash, |t|), p, j)
      ensures t[j].Some?
    {
      if p == hole {
        assert InArc(Ideal(s[n].value.hash, |s|), n, j);
      }
    }
  }

  /** Moving an entry to a free slot stores the same bindings. */
  lemma MoveStores<V>(s: seq<Slot<V>>, hasher: Bytes -> nat, m: map<Bytes, V>, hole: nat, n: nat)
    requires hole < |s| && n < |s| && s[hole].None? && s[n].Some? && Stores(s, hasher, m)
    ensures Stores(s[hole := s[n]][n := None], hasher, m)
    ensures Occupied(s[hole := s[n]][n := None]) == Occupied(s)
  {
    var t := s[hole := s[n]][n := None];
    OccupiedUpdate(s, hole, s[n]);
    OccupiedUpdate(s[hole := s[n]], n, None);
    forall k | k in m ensures exists p :: Holds(t, p, k) {
      var p :| Holds(s, p, k);
      assert Holds(t, if p == n then hole else p, k);
    }
  }

  /** An entry whose ideal slot is past the hole stays where it is. */
  lemma ShiftSkip<V>(s: seq<Slot<V>>, hole: nat, i: nat)
    requires Repairing(s, hole, i)
    requires var n := Next(i, |s|); s[n].Some? && CyclicIn(hole, n, Ideal(s[n].value.hash, |s|))
    ensures Repairing(s, hole, Next(i, |s|))
  {
    var n := Next(i, |s|);
    assert !InArc(Ideal(s[n].value.hash, |s|), n, hole);
    assert forall p | 0 <= p < |s| && CyclicIn(hole, n, p) :: p == n || (hole != i && CyclicIn(hole, i, p));
  }

  // ---------- growing ----------

  /** `moved` holds exactly the bindings of the first `n` slots of the old ring. */
  ghost predicate Moved<V>(from: seq<Slot<V>>, n: nat, moved: map<Bytes, V>) {
    && n <= |from|
    && (forall p | 0 <= p < n && from[p].Some? ::
          from[p].value.key in moved && moved[from[p].value.key] == from[p].value.value)
    && (forall k | k in moved :: exists p: nat :: p < n && Holds(from, p, k))
  }

  /** The next entry of the old ring is not yet in the new one. */
  lemma NextIsUnmoved<V>(from: seq<Slot<V>>, hasher: Bytes -> nat, m: map<Bytes, V>, n: nat, moved: map<Bytes, V>)
    requires Stores(from, hasher, m) && n < |from| && Moved(from, n, moved) && from[n].Some?
    ensures from[n].value.hash == hasher(from[n].value.key) && from[n].value.key !in moved
  {
    assert forall p: nat | p < n :: !Holds(from, p, from[n].value.key);
  }

  lemma MoveNext<V>(from: seq<Slot<V>>, n: nat, moved: map<Bytes, V>)
    requires n < |from| && Moved(from, n, moved)
    requires from[n].Some? ==> from[n].value.key !in moved
    ensures Occupied(from[..n + 1]) == Occupied(from[..n]) + (if from[n].Some? then 1 else 0)
    ensures Moved(from, n + 1, if from[n].None? then moved else moved[from[n].value.key := from[n].value.value])
  {
    assert from[..n + 1][..n] == from[..n];
    forall k | k in moved ensures exists p: nat :: p < n + 1 && Holds(from, p, k) {
      var p: nat :| p < n && Holds(from, p, k);
      assert p < n + 1;
    }
    assert from[n].Some? ==> Holds(from, n, from[n].value.key);
  }

  lemma AllMoved<V>(from: seq<Slot<V>>, hasher: Bytes -> nat, m: map<Bytes, V>, moved: map<Bytes, V>)
    requires Stores(from, hasher, m) && Moved(from, |from|, moved)
    ensures moved == m
  {
    forall k | k in m ensures k in moved {
      var p :| Holds(from, p, k);
    }
    forall k | k in moved ensures k in m && m[k] == moved[k] {
      var p: nat :| p < |from| && Holds(from, p, k);
    }
  }

  // ---------- the map ----------

  class FlatMap<V> {
    var slots: array<Slot<V>>
    var len: nat
    var mask: nat
    const hasher: Bytes -> nat
    ghost var contents: map<Bytes, V>

    function GrowThreshold(): nat
      reads this
    {
      (slots.Length / LOAD_DEN) * LOAD_NUM
    }

    /** The table proper, once allocated. */
    ghost predicate Sound()
      reads this, slots
    {
      && IsPow2(slots.Length) && slots.Length >= MIN_CAP && mask == slots.Length - 1
      && Table(slots[..], hasher, contents)
      && len == Occupied(slots[..])
    }

    ghost predicate Valid()
      reads this, slots
    {
      && len == |contents|
      && (slots.Length == 0 ==> mask == 0 && contents == map[])
      && (slots.Length != 0 ==> Sound() && len <= GrowThreshold())
    }

    constructor (hasher: Bytes -> nat)
      ensures Valid() && contents == map[] && fresh(slots) && this.hasher == hasher
      ensures slots.Length == 0
    {
      this.hasher := hasher;
      slots := new Slot<V>[0];
      len := 0;
      mask := 0;
      contents := map[];
    }

    /** Pre-sized so that `cap` insertions never cross the growth threshold. */
    constructor WithCapacity(hasher: Bytes -> nat, cap: nat)
      ensures Valid() && contents == map[] && fresh(slots) && this.hasher == hasher
      ensures cap == 0 ==> slots.Length == 0
      ensures cap <= GrowThreshold()
    {
      this.hasher := hasher;
      len := 0;
      contents := map[];
      var raw := if cap > 0 then CapacityFor(cap) else 0;
      slots := new Slot<V>[raw](_ => None);
      mask := if raw == 0 then 0 else raw - 1;
      new;
      if cap > 0 {
        EmptyTable(slots[..], hasher, slots[..], contents);
      }
    }

    method Alloc(rawCap: nat)
      requires IsPow2(rawCap) && rawCap >= MIN_CAP
      requires len == 0 && contents == map[]
      modifies this
      ensures Sound() && contents == map[] && len == 0 && fresh(slots) && slots.Length == rawCap
    {
      slots := new Slot<V>[rawCap](_ => None);
      mask := rawCap - 1;
      EmptyTable(slots[..], hasher, slots[..], contents);
    }

    /** The probe loop of every operation: stops on the key or on the first free slot. */
    method Probe(hash: nat, key: Bytes) returns (i: nat)
      requires Sound() && len < slots.Length && hash == hasher(key)
      ensures Probing(slots[..], Ideal(hash, slots.Length), i, key)
      ensures key in contents <==> slots[i].Some?
      ensures slots[i].Some? ==> slots[i].value.key == key && contents[key] == slots[i].value.value
    {
      var start := Ideal(hash, mask + 1);
      i := start;
      ghost var free := FreeSlotExists(slots[..]);
      while slots[i].Some? && !(slots[i].value.hash == hash && slots[i].value.key == key)
        invariant Probing(slots[..], start, i, key)
        invariant !InArc(start, i, free)
        decreases Distance(i, free, slots.Length)
      {
        i := Next(i, mask + 1);
      }
      if slots[i].None? {
        AbsentAtFreeSlot(slots[..], hasher, contents, i, key);
      }
    }

    /** Lookup answers like the mathematical map. */
    method Get(key: Bytes) returns (r: Option<V>)
      requires Valid()
      ensures r == if key in contents then Some(contents[key]) else None
    {
      if slots.Length == 0 {
        return None;
      }
      var i := Probe(hasher(key), key);
      r := if slots[i].Some? then Some(slots[i].value.value) else None;
    }

    /** Makes room: allocates the first ring, or doubles it once the load reaches 7/8. */
    method Reserve()
      requires Valid()
      modifies this
      ensures Sound() && len == |contents| && len < GrowThreshold()
      ensures contents == old(contents) && len == old(len)
      ensures slots.Length == (if old(slots.Length) == 0 then MIN_CAP
                               else if len >= old(GrowThreshold()) then 2 * old(slots.Length)
                               else old(slots.Length))
      ensures slots == old(slots) || fresh(slots)
    {
      if slots.Length == 0 {
        MinCapIsPow2();
        Alloc(MIN_CAP);
      } else if len >= GrowThreshold() {
        Grow();
      }
    }

    /** Insert or overwrite; the answer is the value that was replaced. */
    method Insert(key: Bytes, value: V) returns (r: Option<V>)
      requires Valid()
      modifies this, slots
      ensures Valid() && (slots == old(slots) || fresh(slots))
      ensures contents == old(contents)[key := value]
      ensures r == if key in old(contents) then Some(old(contents)[key]) else None
      ensures slots.Length == (if old(slots.Length) == 0 then MIN_CAP
                               else if old(len) >= old(GrowThreshold()) then 2 * old(slots.Length)
                               else old(slots.Length))
    {
      hide IsPow2, Chained, Stores, Occupied, Probing;
      Reserve();
      var hash := hasher(key);
      var i := Probe(hash, key);
      ghost var before := slots[..];
      match slots[i] {
        case None =>
          PlaceAtFreeSlot(before, hasher, contents, i, Entry(hash, key, value));
          slots[i] := Some(Entry(hash, key, value));
          len := len + 1;
          r := None;
          assert slots[..] == before[i := Some(Entry(hash, key, value))];
        case Some(e) =>
          OverwriteInPlace(before, hasher, contents, i, value);
          slots[i] := Some(e.(value := value));
          r := Some(e.value);
          assert slots[..] == before[i := Some(e.(value := value))];
      }
      contents := contents[key := value];
    }

    /** Remove; the answer is the value that was held. */
    method Remove(key: Bytes) returns (r: Option<V>)
      requires Valid()
      modifies this, slots
      ensures Valid() && slots == old(slots)
      ensures contents == old(contents) - {key}
      ensures r == if key in old(contents) then Some(old(contents)[key]) else None
    {
      hide IsPow2, Chained, Stores, Occupied, Repairing, Probing;
      if slots.Length == 0 {
        return None;
      }
      var i := Probe(hasher(key), key);
      if slots[i].None? {
        return None;
      }
      r := Some(slots[i].value.value);
      ghost var before := slots[..];
      ghost var free := FreeSlotExists(before);
      RemoveOpensHole(before, hasher, contents, i);
      slots[i] := None;
      len := len - 1;
      assert slots[..] == before[i := None];
      assert (contents - {key}).Keys == contents.Keys - {key};
      contents := contents - {key};
      BackwardShift(i, free);
    }

    /** Restores every probe chain after the entry at `start` was taken out. */
    method BackwardShift(start: nat, ghost free: nat)
      requires slots.Length > 1 && mask == slots.Length - 1
      requires Repairing(slots[..], start, start) && Stores(slots[..], hasher, contents)
      requires start < slots.Length && slots[start].None?
      requires free < slots.Length && slots[free].None? && free != start
      modifies slots
      ensures Table(slots[..], hasher, contents)
      ensures Occupied(slots[..]) == old(Occupied(slots[..]))
    {
      hide Chained, Stores, Repairing, Occupied;
      var hole: nat := start;
      var i: nat := start;
      while true
        invariant hole < slots.Length && i < slots.Length && slots[hole].None?
        invariant slots[free].None? && free != hole && free != i
        invariant Repairing(slots[..], hole, i) && Stores(slots[..], hasher, contents)
        invariant Occupied(slots[..]) == old(Occupied(slots[..]))
        decreases Distance(i, free, slots.Length)
      {
        ghost var before := slots[..];
        var n := Next(i, mask + 1);
        match slots[n] {
          case None =>
            RepairDone(before, hole, i);
            return;
          case Some(e) =>
            if !CyclicIn(hole, n, Ideal(e.hash, mask + 1)) {
              ShiftBack(before, hole, i);
              MoveStores(before, hasher, contents, hole, n);
              slots[hole] := slots[n];
              slots[n] := None;
              assert slots[..] == before[hole := before[n]][n := None];
              hole := n;
            } else {
              ShiftSkip(before, hole, i);
            }
        }
        i := n;
      }
    }

    /** Re-places one entry of the old ring: walk to the first free slot and settle there. */
    method Reinsert(e: Entry<V>, ghost moved: map<Bytes, V>)
      requires slots.Length > 0 && mask == slots.Length - 1 && Occupied(slots[..]) < slots.Length
      requires Table(slots[..], hasher, moved) && e.hash == hasher(e.key) && e.key !in moved
      modifies slots
      ensures Table(slots[..], hasher, moved[e.key := e.value])
      ensures Occupied(slots[..]) == old(Occupied(slots[..])) + 1
    {
      var start := Ideal(e.hash, mask + 1);
      var i := start;
      ghost var free := FreeSlotExists(slots[..]);
      while slots[i].Some?
        invariant Probing(slots[..], start, i, e.key)
        invariant !InArc(start, i, free)
        decreases Distance(i, free, slots.Length)
      {
        i := Next(i, mask + 1);
      }
      hide Chained, Stores, Occupied;
      ghost var before := slots[..];
      PlaceAtFreeSlot(before, hasher, moved, i, e);
      slots[i] := Some(e);
      assert slots[..] == before[i := Some(e)];
    }

    /** Doubles the ring and re-places every entry. */
    method Grow()
      requires Sound() && len == |contents|
      modifies this
      ensures Sound() && fresh(slots) && slots.Length == 2 * old(slots.Length)
      ensures contents == old(contents) && len == old(len)
    {
      hide Chained, Stores, Moved, Occupied;
      var from := slots[..];
      var newCap := Max(2 * slots.Length, MIN_CAP);
      assert newCap / 2 == slots.Length;
      slots := new Slot<V>[newCap](_ => None);
      mask := newCap - 1;
      ghost var moved: map<Bytes, V> := map[];
      EmptyTable(slots[..], hasher, from, moved);
      for n := 0 to |from|
        invariant fresh(slots) && slots.Length == newCap && mask == newCap - 1
        invariant contents == old(contents) && len == old(len)
        invariant Table(slots[..], hasher, moved) && Moved(from, n, moved)
        invariant Occupied(slots[..]) == Occupied(from[..n])
      {
        if from[n].Some? {
          NextIsUnmoved(from, hasher, contents, n, moved);
          Reinsert(from[n].value, moved);
        }
        MoveNext(from, n, moved);
        moved := if from[n].None? then moved else moved[from[n].value.key := from[n].value.value];
      }
      assert from[..|from|] == from;
      AllMoved(from, hasher, contents, moved);
    }

    /** Every binding once, in slot order. */
    method Iter() returns (pairs: seq<(Bytes, V)>)
      requires Valid()
      ensures |pairs| == len
      ensures forall i | 0 <= i < |pairs| :: pairs[i].0 in contents && contents[pairs[i].0] == pairs[i].1
      ensures forall i, j | 0 <= i < j < |pairs| :: pairs[i].0 != pairs[j].0
    {
      hide Chained, IsPow2, InArc;
      pairs := [];
      for n := 0 to slots.Length
        invariant pairs == Yield(slots[..n])
      {
        assert slots[..n + 1][..n] == slots[..n];
        if slots[n].Some? {
          pairs := pairs + [(slots[n].value.key, slots[n].value.value)];
        }
      }
      assert slots[..slots.Length] == slots[..] && (slots.Length == 0 ==> len == 0);
      YieldIsEntries(slots[..]);
    }
  }

  // ---------- whole runs ----------

  datatype Call<V> = Lookup(key: Bytes) | Put(key: Bytes, value: V) | Delete(key: Bytes)

  function Answer<V>(m: map<Bytes, V>, k: Bytes): Option<V> {
    if k in m then Some(m[k]) else None
  }

  function After<V>(m: map<Bytes, V>, c: Call<V>): map<Bytes, V> {
    match c
    case Lookup(_) => m
    case Put(k, v) => m[k := v]
    case Delete(k) => m - {k}
  }

  /** What a mathematical map would answer, call by call. */
  function Expected<V>(m: map<Bytes, V>, calls: seq<Call<V>>): (r: seq<Option<V>>)
    ensures |r| == |calls|
    decreases |calls|
  {
    if calls == [] then [] else [Answer(m, calls[0].key)] + Expected(After(m, calls[0]), calls[1..])
  }

  method Step<V>(t: FlatMap<V>, c: Call<V>) returns (r: Option<V>)
    requires t.Valid()
    modifies t, t.slots
    ensures t.Valid() && (t.slots == old(t.slots) || fresh(t.slots))
    ensures r == Answer(old(t.contents), c.key) && t.contents == After(old(t.contents), c)
  {
    match c {
      case Lookup(k) => r := t.Get(k);
      case Put(k, v) => r := t.Insert(k, v);
      case Delete(k) => r := t.Remove(k);
    }
  }

  /** Any run on a fresh table, under any hash function, answers like the mathematical map. */
  method Run<V>(hasher: Bytes -> nat, calls: seq<Call<V>>) returns (answers: seq<Option<V>>)
    ensures answers == Expected(map[], calls)
  {
    hide FlatMap.Valid;
    var t := new FlatMap<V>(hasher);
    answers := [];
    ghost var rest := calls;
    for n := 0 to |calls|
      invariant t.Valid() && fresh(t) && fresh(t.slots)
      invariant rest == calls[n..]
      invariant answers + Expected(t.contents, rest) == Expected(map[], calls)
    {
      ghost var before := t.contents;
      var r := Step(t, calls[n]);
      assert Expected(before, rest) == [r] + Expected(t.contents, rest[1..]);
      answers := answers + [r];
      rest := rest[1..];
    }
  }
}
