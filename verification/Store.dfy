/** The sharded store, and what any run of calls on it shows to its callers. */
module Stores {
  import opened Basics
  import opened Values
  import opened Keyspace
  import opened Shards
  import opened S3Fifos
  import opened Sums
  import FlatMaps

  // ---------- lazy expiry and the eager reference ----------

  /** Answers agree, and what is visible at `now` agrees, whichever expired entries still lie around. */
  lemma LazyIsEager(db: Db, op: Op, now: nat)
    requires OneKey(op)
    ensures LazyApply(db, op, now).1 == Apply(db, op, now).1
    ensures Live(LazyApply(db, op, now).0, now) == Live(Apply(db, op, now).0, now)
  {
    hide StepCell;
    assert LiveCell(db, op.key, now) == Cell(Live(db, now), op.key);
    var cell := StepCell(LiveCell(db, op.key, now), op, now).0;
    LivePut(db, op.key, cell, now);
  }

  lemma LivePut(db: Db, k: Bytes, cell: Option<Entry>, now: nat)
    ensures Live(Put(db, k, cell), now) == Live(Put(Live(db, now), k, cell), now)
  {
    assert Live(Put(db, k, cell), now).Keys == Live(Put(Live(db, now), k, cell), now).Keys;
  }

  /** The reference sees only what is visible: equal visible states stay equal, with equal answers. */
  lemma ApplySeesLive(a: Db, b: Db, op: Op, t: nat, now: nat)
    requires t <= now && Live(a, t) == Live(b, t)
    ensures Apply(a, op, now) == Apply(b, op, now)
  {
    LiveLater(a, t, now);
    LiveLater(b, t, now);
  }

  // ---------- many shards, one map ----------

  /** The shard of a key: `hash & mask`, on a power-of-two number of shards. */
  function Home(route: Bytes -> nat, k: Bytes, n: nat): (i: nat)
    requires n > 0
    ensures i < n
  {
    route(k) % n
  }

  /** Every key lies in the shard it is routed to. */
  ghost predicate Routed(dbs: seq<Db>, route: Bytes -> nat) {
    |dbs| > 0 && forall i, k | 0 <= i < |dbs| && k in dbs[i] :: Home(route, k, |dbs|) == i
  }

  ghost function Union(dbs: seq<Db>, route: Bytes -> nat): (r: Db)
    requires Routed(dbs, route)
    ensures forall k :: k in r <==> k in dbs[Home(route, k, |dbs|)]
    ensures forall k | k in r :: r[k] == dbs[Home(route, k, |dbs|)][k]
  {
    var all := set i, k | 0 <= i < |dbs| && k in dbs[i] :: k;
    map k | k in all :: dbs[Home(route, k, |dbs|)][k]
  }

  lemma SameCells(a: Db, b: Db)
    requires forall j :: Cell(a, j) == Cell(b, j)
    ensures a == b
  {
    assert forall j :: j in a <==> Cell(a, j).Some?;
    assert forall j :: j in b <==> Cell(b, j).Some?;
    assert forall j | j in a :: Cell(a, j).value == a[j];
    assert forall j | j in b :: Cell(b, j).value == b[j];
  }

  lemma CellOfPut(db: Db, k: Bytes, cell: Option<Entry>, j: Bytes)
    ensures Cell(Put(db, k, cell), j) == if j == k then cell else Cell(db, j)
  {
  }

  lemma CellOfUnion(dbs: seq<Db>, route: Bytes -> nat, j: Bytes)
    requires Routed(dbs, route)
    ensures Cell(Union(dbs, route), j) == Cell(dbs[Home(route, j, |dbs|)], j)
  {
  }

  lemma PutIsRouted(dbs: seq<Db>, route: Bytes -> nat, k: Bytes, cell: Option<Entry>)
    requires Routed(dbs, route)
    ensures var i := Home(route, k, |dbs|); Routed(dbs[i := Put(dbs[i], k, cell)], route)
  {
  }

  /** A change of one key in its shard is that change of the union. */
  lemma UnionPut(dbs: seq<Db>, route: Bytes -> nat, k: Bytes, cell: Option<Entry>)
    requires Routed(dbs, route)
    ensures var i := Home(route, k, |dbs|);
            && Routed(dbs[i := Put(dbs[i], k, cell)], route)
            && Union(dbs[i := Put(dbs[i], k, cell)], route) == Put(Union(dbs, route), k, cell)
  {
    hide Home, Put, Union, Routed, Cell;
    PutIsRouted(dbs, route, k, cell);
    var i := Home(route, k, |dbs|);
    var ebs := dbs[i := Put(dbs[i], k, cell)];
    forall j ensures Cell(Union(ebs, route), j) == Cell(Put(Union(dbs, route), k, cell), j) {
      CellOfUnion(dbs, route, j);
      CellOfUnion(ebs, route, j);
      CellOfPut(dbs[i], k, cell, j);
      CellOfPut(Union(dbs, route), k, cell, j);
    }
    SameCells(Union(ebs, route), Put(Union(dbs, route), k, cell));
  }

  lemma UnionShrinks(dbs: seq<Db>, route: Bytes -> nat, i: nat, db: Db)
    requires Routed(dbs, route) && i < |dbs| && SubBindings(db, dbs[i])
    ensures Routed(dbs[i := db], route)
    ensures SubBindings(Union(dbs[i := db], route), Union(dbs, route))
  {
  }

  /** One call routed to its shard: the union follows the lazy reference. */
  lemma RoutedCall(dbs: seq<Db>, route: Bytes -> nat, op: Op, now: nat, after: Db)
    requires Routed(dbs, route) && OneKey(op)
    requires SubBindings(after, LazyApply(dbs[Home(route, op.key, |dbs|)], op, now).0)
    ensures var i := Home(route, op.key, |dbs|);
            && LazyApply(dbs[i], op, now).1 == LazyApply(Union(dbs, route), op, now).1
            && Routed(dbs[i := after], route)
            && SubBindings(Union(dbs[i := after], route), LazyApply(Union(dbs, route), op, now).0)
            && (after == LazyApply(dbs[i], op, now).0 ==>
                  Union(dbs[i := after], route) == LazyApply(Union(dbs, route), op, now).0)
  {
    hide StepCell, Home;
    var i := Home(route, op.key, |dbs|);
    assert LiveCell(dbs[i], op.key, now) == LiveCell(Union(dbs, route), op.key, now);
    var full := LazyApply(dbs[i], op, now).0;
    UnionPut(dbs, route, op.key, StepCell(LiveCell(dbs[i], op.key, now), op, now).0);
    UnionShrinks(dbs[i := full], route, i, after);
    assert dbs[i := full][i := after] == dbs[i := after];
  }

  lemma SubBindingsLive(a: Db, b: Db, now: nat)
    requires SubBindings(a, b)
    ensures SubBindings(Live(a, now), Live(b, now))
  {
  }

  // ---------- the store ----------

  function Sum(xs: seq<nat>): nat {
    if xs == [] then 0 else Sum(xs[..|xs| - 1]) + xs[|xs| - 1]
  }

  lemma {:induction false} SumBound(xs: seq<nat>, each: nat)
    requires forall i | 0 <= i < |xs| :: xs[i] <= each
    ensures Sum(xs) <= |xs| * each
  {
    if xs != [] {
      SumBound(xs[..|xs| - 1], each);
      assert |xs| * each == (|xs| - 1) * each + each;
    }
  }

  /** The budget of one shard: an equal share, but never zero when a limit is set. */
  function PerShard(maxmemory: nat, n: nat): nat
    requires n > 0
  {
    if maxmemory == 0 then 0 else Max(maxmemory / n, 1)
  }

  // ---------- a call as a function of the whole store ----------

  /** What stays fixed in a store: the router and the budget of each shard. */
  datatype Setup = Setup(route: Bytes -> nat, budget: nat)

  const EMPTY_IMAGE := Image(map[], NOTHING)

  ghost function ContentsOf(ims: seq<Image>, cfg: Setup): Db
    requires |ims| > 0
  {
    var dbs := EntriesOf(ims);
    if Routed(dbs, cfg.route) then Union(dbs, cfg.route) else map[]
  }

  ghost function EntriesOf(ims: seq<Image>): (dbs: seq<Db>)
    ensures |dbs| == |ims| && forall i | 0 <= i < |ims| :: dbs[i] == ims[i].entries
  {
    seq(|ims|, i requires 0 <= i < |ims| => ims[i].entries)
  }

  ghost function AllEmpty(n: nat): (ims: seq<Image>)
    ensures |ims| == n && forall i | 0 <= i < n :: ims[i] == EMPTY_IMAGE
  {
    seq(n, i => EMPTY_IMAGE)
  }

  /** The first `n` shards swept. */
  ghost function PurgedImages(ims: seq<Image>, n: nat, now: nat, budget: nat): (r: seq<Image>)
    ensures |r| == |ims|
    ensures forall i | 0 <= i < |ims| :: r[i] == if i < n then PurgedImage(ims[i], now, budget) else ims[i]
  {
    seq(|ims|, i requires 0 <= i < |ims| => if i < n then PurgedImage(ims[i], now, budget) else ims[i])
  }

  /** The next state and the answer of any call, with or without a memory limit. */
  ghost function StoreStep(ims: seq<Image>, cfg: Setup, op: Op, now: nat): (r: (seq<Image>, Answer))
    requires |ims| > 0
    ensures |r.0| == |ims|
  {
    var next :=
      match op
      case ListKeys => ims
      case FlushAll => AllEmpty(|ims|)
      case PurgeExpired => PurgedImages(ims, |ims|, now, cfg.budget)
      case _ =>
        var h := Home(cfg.route, op.key, |ims|);
        ims[h := CallImage(ims[h], op, now, cfg.budget)];
    (next, Apply(ContentsOf(ims, cfg), op, now).1)
  }

  /** A run of calls. */
  ghost function StoreRun(ims: seq<Image>, cfg: Setup, run: seq<TimedOp>): (r: (seq<Image>, seq<Answer>))
    requires |ims| > 0
    ensures |r.0| == |ims| && |r.1| == |run|
  {
    if run == [] then (ims, [])
    else
      var last := run[|run| - 1];
      var (mid, got) := StoreRun(ims, cfg, run[..|run| - 1]);
      var (end, a) := StoreStep(mid, cfg, last.op, last.now);
      (end, got + [a])
  }

  /** Fresh shards, all empty. */
  method NewShards(n: nat, budget: nat) returns (ss: seq<Shard>)
    ensures |ss| == n
    ensures forall i | 0 <= i < n :: fresh(ss[i]) && fresh(ss[i].pol)
    ensures forall i | 0 <= i < n :: ss[i].Valid() && ss[i].budget == budget && ss[i].Shown() == EMPTY_IMAGE
    ensures forall i, j | 0 <= i < j < n :: ss[i] != ss[j] && ss[i].pol != ss[j].pol
  {
    hide Shard.Valid;
    ss := [];
    while |ss| < n
      invariant |ss| <= n
      invariant forall i | 0 <= i < |ss| :: fresh(ss[i]) && fresh(ss[i].pol)
      invariant forall i | 0 <= i < |ss| :: ss[i].Valid() && ss[i].budget == budget && ss[i].Shown() == EMPTY_IMAGE
      invariant forall i, j | 0 <= i < j < |ss| :: ss[i] != ss[j] && ss[i].pol != ss[j].pol
    {
      var s := new Shard(budget);
      ss := ss + [s];
    }
  }

  ghost function Accounts(ss: seq<Shard>): (r: seq<nat>)
    reads ss
    ensures |r| == |ss| && forall i | 0 <= i < |ss| :: r[i] == ss[i].bytes
  {
    seq(|ss|, i requires 0 <= i < |ss| reads ss => ss[i].bytes)
  }

  /** Every shard within its share keeps the whole within the limit, even a limit below the shard count. */
  lemma WithinLimit(ss: seq<Shard>, maxmemory: nat)
    requires |ss| > 0 && maxmemory != 0
    requires forall i | 0 <= i < |ss| :: ss[i].Valid() && ss[i].budget == PerShard(maxmemory, |ss|)
    ensures Sum(Accounts(ss)) <= maxmemory
  {
    hide S3Fifo.Valid, TotalCost;
    var all := Accounts(ss);
    var n := |ss|;
    if maxmemory >= n {
      SumBound(all, maxmemory / n);
      assert n * (maxmemory / n) <= maxmemory;
    } else {
      forall i | 0 <= i < n ensures all[i] <= 0 {
        SmallBudgetHoldsNothing(ss[i]);
      }
      SumBound(all, 0);
    }
  }

  /** Below the overhead of one entry a shard stays empty. */
  lemma SmallBudgetHoldsNothing(s: Shard)
    requires s.Valid() && 0 < s.budget < ENTRY_OVERHEAD
    ensures s.bytes == 0 && s.entries == map[]
  {
    hide Costs;
    CostlyEntries(s.entries);
    EmptyCostsNothing(s.entries);
  }

  /** The smallest power of two that is not below the number asked for, nor below one. */
  function ShardCount(n: nat): nat {
    FlatMaps.NextPow2(1, Max(n, 1))
  }

  class Store {
    var shards: seq<Shard>
    const router: Bytes -> nat
    const maxmemory: nat

    ghost predicate Distinct()
      reads this
    {
      forall i, j | 0 <= i < j < |shards| :: shards[i] != shards[j] && shards[i].pol != shards[j].pol
    }

    ghost function Dbs(): seq<Db>
      reads this, shards
    {
      seq(|shards|, i requires 0 <= i < |shards| reads this, shards => shards[i].entries)
    }

    ghost function Images(): seq<Image>
      reads this, shards, set s | s in shards :: s.pol
    {
      seq(|shards|, i requires 0 <= i < |shards| reads this, shards, set s | s in shards :: s.pol => shards[i].Shown())
    }

    ghost function Cfg(): Setup
      requires |shards| > 0
      reads this
    {
      Setup(router, PerShard(maxmemory, |shards|))
    }

    ghost predicate Valid()
      reads this, shards, set s | s in shards :: s.pol
    {
      && Distinct()
      && (forall i | 0 <= i < |shards| :: shards[i].Valid())
      && |shards| > 0
      && (forall i | 0 <= i < |shards| :: shards[i].budget == PerShard(maxmemory, |shards|))
      && Routed(Dbs(), router)
    }

    ghost function Contents(): Db
      requires Valid()
      reads this, shards, set s | s in shards :: s.pol
    {
      Union(Dbs(), router)
    }

    /** The contents are those of the image. */
    lemma ContentsOfImages()
      requires Valid()
      ensures |Images()| == |shards| > 0 && ContentsOf(Images(), Cfg()) == Contents()
    {
      hide Shard.Valid, Union, Home;
      var ims := Images();
      assert EntriesOf(ims) == Dbs();
    }

    /** The sum of the shards' byte accounts. */
    ghost function TotalBytes(): nat
      reads this, shards
    {
      Sum(Accounts(shards))
    }

    constructor (n: nat, maxmemory: nat, router: Bytes -> nat)
      ensures Valid() && Contents() == map[] && this.maxmemory == maxmemory && this.router == router
      ensures |shards| == ShardCount(n) > 0 && FlatMaps.IsPow2(|shards|) && Images() == AllEmpty(|shards|)
      ensures fresh(shards) && forall s | s in shards :: fresh(s.pol)
    {
      hide Shard.Valid;
      var count := ShardCount(n);
      this.router := router;
      this.maxmemory := maxmemory;
      var ss := NewShards(count, PerShard(maxmemory, count));
      shards := ss;
      new;
      assert forall i | 0 <= i < |shards| :: Dbs()[i] == map[];
    }

    /** What the call leaves in the key's own shard fits that shard's budget. */
    ghost predicate HasRoom(op: Op, now: nat)
      requires |shards| > 0 && OneKey(op)
      reads this, shards
    {
      TotalCost(LazyApply(shards[Home(router, op.key, |shards|)].entries, op, now).0) <= Cfg().budget
    }

    /**
     * A call on one key, run in the shard that owns it. Nothing is evicted where the result fits,
     * and what is evicted otherwise is a function of the shard's state.
     */
    method CallKey(op: Op, now: nat) returns (a: Answer)
      requires Valid() && OneKey(op)
      modifies shards, set s | s in shards :: s.pol
      ensures Valid() && shards == old(shards)
      ensures a == LazyApply(old(Contents()), op, now).1
      ensures SubBindings(Contents(), LazyApply(old(Contents()), op, now).0)
      ensures maxmemory == 0 || old(HasRoom(op, now)) ==> Contents() == LazyApply(old(Contents()), op, now).0
      ensures Images() == old(Images())[Home(router, op.key, |shards|) :=
                CallImage(old(Images())[Home(router, op.key, |shards|)], op, now, Cfg().budget)]
    {
      hide Shard.Valid, Routed, Union, LazyApply, SubBindings, Home, CallImage, TotalCost;
      var i := Home(router, op.key, |shards|);
      ghost var dbs := Dbs();
      ghost var ims := Images();
      a := shards[i].Call(op, now);
      assert Dbs() == dbs[i := shards[i].entries];
      assert Images() == ims[i := shards[i].Shown()];
      RoutedCall(dbs, router, op, now, shards[i].entries);
    }

    /** KEYS: the live keys of all shards. */
    method AllKeys(now: nat) returns (a: Answer)
      requires Valid()
      ensures a == Members(Live(Contents(), now).Keys)
    {
      hide Shard.Valid;
      var out := {};
      for i := 0 to |shards|
        invariant out == set k | k in Contents() && Home(router, k, |shards|) < i && !Expired(Contents()[k], now)
      {
        var here := shards[i].entries;
        assert here == Dbs()[i];
        out := out + set k | k in here && !Expired(here[k], now);
      }
      assert out == Live(Contents(), now).Keys;
      a := Members(out);
    }

    method Flush()
      requires Valid()
      modifies this
      ensures Valid() && Contents() == map[] && |shards| == |old(shards)|
      ensures Images() == AllEmpty(|shards|)
      ensures fresh(shards) && forall s | s in shards :: fresh(s.pol)
    {
      hide Shard.Valid;
      shards := NewShards(|shards|, shards[0].budget);
      assert forall i | 0 <= i < |shards| :: Dbs()[i] == map[];
    }

    /** The reaper: every shard drops what has expired. */
    method Purge(now: nat)
      requires Valid()
      modifies shards, set s | s in shards :: s.pol
      ensures Valid() && shards == old(shards) && Contents() == Live(old(Contents()), now)
      ensures Images() == PurgedImages(old(Images()), |shards|, now, Cfg().budget)
    {
      hide Shard.Valid, Routed, Union, Home, PurgedImage, PurgedImages;
      ghost var dbs := Dbs();
      ghost var ims := Images();
      SweepStart(dbs, now);
      for i := 0 to |shards|
        invariant Distinct() && shards == old(shards) && Dbs() == Swept(dbs, i, now)
        invariant forall j | 0 <= j < |shards| :: shards[j].Valid()
        invariant Images() == PurgedImages(ims, i, now, Cfg().budget)
      {
        ghost var before := Dbs();
        assert shards[i].entries == before[i] == dbs[i];
        shards[i].Purge(now);
        assert Dbs() == before[i := Live(dbs[i], now)];
      }
      SweepDone(dbs, router, now);
    }

    /**
     * Any call. The answer is the reference's, and so is everything visible, unless a memory limit
     * forced evictions, which only ever take entries away.
     */
    method Call(op: Op, now: nat) returns (a: Answer)
      requires Valid()
      modifies this, shards, set s | s in shards :: s.pol
      ensures Valid() && a == Apply(old(Contents()), op, now).1
      ensures SubBindings(Live(Contents(), now), Live(Apply(old(Contents()), op, now).0, now))
      ensures maxmemory == 0 ==> Live(Contents(), now) == Live(Apply(old(Contents()), op, now).0, now)
      ensures OneKey(op) && old(HasRoom(op, now)) ==> Live(Contents(), now) == Live(Apply(old(Contents()), op, now).0, now)
      ensures |shards| == |old(shards)| > 0 && (Images(), a) == StoreStep(old(Images()), Cfg(), op, now)
      ensures shards == old(shards) || (fresh(shards) && forall s | s in shards :: fresh(s.pol))
    {
      hide Shard.Valid, Union, Routed, StepCell, LazyApply, CallImage, PurgedImage, Home, ContentsOf;
      ContentsOfImages();
      ghost var before := Contents();
      match op {
        case ListKeys =>
          a := AllKeys(now);
          LiveLater(before, now, now);
        case FlushAll =>
          Flush();
          a := Done;
        case PurgeExpired =>
          Purge(now);
          a := Done;
        case _ =>
          LazyIsEager(before, op, now);
          a := CallKey(op, now);
          SubBindingsLive(Contents(), LazyApply(before, op, now).0, now);
      }
    }

    /** After any call the account is within the limit. */
    lemma NeverOverLimit()
      requires Valid() && maxmemory != 0
      ensures TotalBytes() <= maxmemory
    {
      hide Shard.Valid;
      WithinLimit(shards, maxmemory);
    }
  }

  /** The first `n` shards swept. */
  ghost function Swept(dbs: seq<Db>, n: nat, now: nat): seq<Db> {
    seq(|dbs|, i requires 0 <= i < |dbs| => if i < n then Live(dbs[i], now) else dbs[i])
  }

  lemma SweepStart(dbs: seq<Db>, now: nat)
    ensures Swept(dbs, 0, now) == dbs
  {
  }

  lemma SweepDone(dbs: seq<Db>, route: Bytes -> nat, now: nat)
    requires Routed(dbs, route)
    ensures Routed(Swept(dbs, |dbs|, now), route)
    ensures Union(Swept(dbs, |dbs|, now), route) == Live(Union(dbs, route), now)
  {
    hide Home;
    assert Union(Swept(dbs, |dbs|, now), route).Keys == Live(Union(dbs, route), now).Keys;
  }

  // ---------- whole runs ----------

  lemma {:induction false} RunStart(ims: seq<Image>, cfg: Setup, run: seq<TimedOp>)
    requires |ims| > 0
    ensures State(map[], run[..0]) == map[] && Answers(map[], run[..0]) == [] && StoreRun(ims, cfg, run[..0]) == (ims, [])
  {
    assert run[..0] == [];
  }

  lemma {:induction false} RunNext(ims: seq<Image>, cfg: Setup, run: seq<TimedOp>, i: nat)
    requires i < |run| && |ims| > 0
    ensures var step := Apply(State(map[], run[..i]), run[i].op, run[i].now);
            && State(map[], run[..i + 1]) == step.0
            && Answers(map[], run[..i + 1]) == Answers(map[], run[..i]) + [step.1]
    ensures var (mid, got) := StoreRun(ims, cfg, run[..i]);
            var (end, a) := StoreStep(mid, cfg, run[i].op, run[i].now);
            StoreRun(ims, cfg, run[..i + 1]) == (end, got + [a])
  {
    hide Apply, StoreStep;
    assert run[..i + 1][..i] == run[..i];
  }

  /**
   * Any run of calls with a clock that never goes back, on any number of shards, under any router.
   * Without a limit the answers and everything visible are those of the eager single-map reference,
   * whatever sweeps are mixed in. With a limit the accounted bytes do not exceed it: every prefix of
   * a run is a run, so they never do. In both cases the run is a function of the calls.
   */
  method Run(n: nat, maxmemory: nat, router: Bytes -> nat, run: seq<TimedOp>) returns (st: Store, answers: seq<Answer>)
    requires ClockOk(run, 0)
    ensures fresh(st) && st.Valid() && |answers| == |run|
    ensures maxmemory == 0 ==> answers == Answers(map[], run)
    ensures maxmemory == 0 ==> forall t | (forall i | 0 <= i < |run| :: run[i].now <= t) ::
              Live(st.Contents(), t) == Live(State(map[], run), t)
    ensures maxmemory != 0 ==> st.TotalBytes() <= maxmemory
    ensures st.maxmemory == maxmemory && st.router == router && |st.shards| == ShardCount(n) > 0
    ensures (st.Images(), answers) == StoreRun(AllEmpty(|st.shards|), st.Cfg(), run)
  {
    hide Store.Valid, Store.Contents, Store.TotalBytes, Store.Images, Apply, Shard.Valid, Live, State, Answers, SubBindings,
         StoreRun, StoreStep;
    st := new Store(n, maxmemory, router);
    answers := [];
    ghost var clock := 0;
    ghost var start, cfg := st.Images(), st.Cfg();
    ghost var count := |st.shards|;
    RunStart(start, cfg, run);
    for i := 0 to |run|
      invariant |answers| == i
      invariant st.Valid() && st.maxmemory == maxmemory && fresh(st) && |st.shards| == count && st.Cfg() == cfg
      invariant fresh(st.shards) && forall s | s in st.shards :: fresh(s.pol)
      invariant forall j | i <= j < |run| :: clock <= run[j].now
      invariant i == 0 ==> clock == 0
      invariant i > 0 ==> clock == run[i - 1].now
      invariant maxmemory == 0 ==> Live(st.Contents(), clock) == Live(State(map[], run[..i]), clock)
      invariant maxmemory == 0 ==> answers == Answers(map[], run[..i])
      invariant (st.Images(), answers) == StoreRun(start, cfg, run[..i])
    {
      var TimedOp(op, now) := run[i];
      ghost var state := State(map[], run[..i]);
      if maxmemory == 0 {
        ApplySeesLive(st.Contents(), state, op, clock, now);
      }
      RunNext(start, cfg, run, i);
      var a := st.Call(op, now);
      answers := answers + [a];
      clock := now;
    }
    assert run[..|run|] == run;
    if maxmemory != 0 {
      st.NeverOverLimit();
    } else {
      forall t | (forall i | 0 <= i < |run| :: run[i].now <= t)
        ensures Live(st.Contents(), t) == Live(State(map[], run), t)
      {
        LiveLater(st.Contents(), clock, t);
        LiveLater(State(map[], run), clock, t);
      }
    }
  }
}
