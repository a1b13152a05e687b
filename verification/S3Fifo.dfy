/** The S3-FIFO eviction policy: two live queues, a ghost queue, counters and lazy deletion. */
module S3Fifos {
  import opened Basics
  import opened Sums

  const PROMOTE_THRESHOLD := 1
  const FREQ_MAX := 3
  const SMALL_PCT := 10
  const GHOST_MIN := 16

  datatype Loc = Small | Main

  datatype Meta = Meta(freq: nat, loc: Loc)

  // ---------- what happened, seen from outside ----------

  /** `remembered`: the key was in the ghost set when it came; `from`: the queue it was evicted from. */
  datatype Event = Inserted(key: Bytes, remembered: bool) | Touched(key: Bytes) | Evicted(key: Bytes, from: Loc)

  ghost predicate IsInsert(e: Event, k: Bytes) {
    e.Inserted? && e.key == k
  }

  /** How often the key was touched since it was last inserted. */
  ghost function Touches(h: seq<Event>, k: Bytes): nat {
    if h == [] then 0
    else
      var e := h[|h| - 1];
      if IsInsert(e, k) then 0
      else Touches(h[..|h| - 1], k) + (if e == Touched(k) then 1 else 0)
  }

  /** The key's last admission or eviction was an eviction from the small queue. */
  ghost predicate LeftSmall(h: seq<Event>, k: Bytes) {
    h != [] &&
    var e := h[|h| - 1];
    if IsInsert(e, k) || (e.Evicted? && e.key == k) then e == Evicted(k, Small) else LeftSmall(h[..|h| - 1], k)
  }

  /** The key's last insertion found it in the ghost set. */
  ghost predicate Recalled(h: seq<Event>, k: Bytes) {
    h != [] &&
    var e := h[|h| - 1];
    if IsInsert(e, k) then e.remembered else Recalled(h[..|h| - 1], k)
  }

  /** Only what left the small queue is ever found in the ghost set. */
  ghost predicate Honest(h: seq<Event>) {
    h != [] ==>
      var init, e := h[..|h| - 1], h[|h| - 1];
      Honest(init) && (e.Inserted? && e.remembered ==> LeftSmall(init, e.key))
  }

  /** One more event: what each of the views above says of each key. */
  lemma {:induction false} NextEvent(h: seq<Event>, e: Event, k: Bytes)
    ensures Touches(h + [e], k) == (if IsInsert(e, k) then 0 else Touches(h, k) + (if e == Touched(k) then 1 else 0))
    ensures LeftSmall(h + [e], k) <==>
            if IsInsert(e, k) || (e.Evicted? && e.key == k) then e == Evicted(k, Small) else LeftSmall(h, k)
    ensures Recalled(h + [e], k) <==> if IsInsert(e, k) then e.remembered else Recalled(h, k)
    ensures Honest(h + [e]) <==> Honest(h) && (e.Inserted? && e.remembered ==> LeftSmall(h, e.key))
  {
    assert (h + [e])[..|h|] == h;
  }

  // ---------- the state invariant ----------

  ghost function At(meta: map<Bytes, Meta>, loc: Loc): set<Bytes> {
    set k | k in meta && meta[k].loc == loc
  }

  ghost function Freqs(meta: map<Bytes, Meta>): map<Bytes, nat> {
    map k | k in meta :: meta[k].freq
  }

  /** Work left before the next victim must appear. */
  ghost function Potential(small: seq<Bytes>, main: seq<Bytes>, meta: map<Bytes, Meta>): nat {
    2 * |small| + |main| + Total(Freqs(meta))
  }

  /**
   * A live key occurs at least once in the queue it belongs to; the queues may also hold stale
   * and duplicate references.
   */
  ghost predicate Queued(small: seq<Bytes>, main: seq<Bytes>, meta: map<Bytes, Meta>) {
    forall k | k in meta ::
      && meta[k].freq <= FREQ_MAX
      && (if meta[k].loc == Small then k in small else k in main)
  }

  ghost predicate GhostsOk(queue: seq<Bytes>, members: set<Bytes>, live: set<Bytes>) {
    && members !! live
    && forall k | k in members :: k in queue
  }

  /**
   * Scan resistance: a key is in the main queue only if, since its last insertion, it was touched
   * twice, or if that insertion found it in the ghost set. The ghost set holds only keys whose last
   * move was out of the small queue.
   */
  ghost predicate Earned(h: seq<Event>, members: set<Bytes>, meta: map<Bytes, Meta>) {
    && Honest(h)
    && (forall k | k in meta && meta[k].loc == Main :: Touches(h, k) >= 2 || Recalled(h, k))
    && (forall k | k in meta && meta[k].loc == Small :: meta[k].freq <= Touches(h, k))
    && (forall k | k in members :: LeftSmall(h, k))
  }

  lemma EarnedInsert(h: seq<Event>, members: set<Bytes>, meta: map<Bytes, Meta>, key: Bytes)
    requires Earned(h, members, meta) && key !in meta
    ensures Earned(h + [Inserted(key, key in members)], members - {key},
                   meta[key := Meta(0, if key in members then Main else Small)])
  {
    forall k { NextEvent(h, Inserted(key, key in members), k); }
  }

  lemma EarnedTouch(h: seq<Event>, members: set<Bytes>, meta: map<Bytes, Meta>, key: Bytes)
    requires Earned(h, members, meta)
    ensures Earned(h + [Touched(key)], members, meta)
    ensures key in meta ==>
              Earned(h + [Touched(key)], members, meta[key := meta[key].(freq := Min(meta[key].freq + 1, FREQ_MAX))])
  {
    forall k { NextEvent(h, Touched(key), k); }
  }

  /** A key evicted from the small queue may be remembered; one evicted from the main queue is not. */
  lemma EarnedEvict(h: seq<Event>, members: set<Bytes>, meta: map<Bytes, Meta>, key: Bytes, from: Loc)
    requires Earned(h, members, meta) && key in meta && members !! meta.Keys
    ensures from == Small ==> forall kept | kept <= members + {key} :: Earned(h + [Evicted(key, from)], kept, meta - {key})
    ensures from == Main ==> Earned(h + [Evicted(key, from)], members, meta - {key})
  {
    forall k { NextEvent(h, Evicted(key, from), k); }
  }

  lemma AtUpdate(meta: map<Bytes, Meta>, k: Bytes, m: Meta, l: Loc)
    ensures |At(meta[k := m], l)| == |At(meta, l)| + (if m.loc == l then 1 else 0) - Count(meta, k, l)
  {
    assert m.loc == l ==> At(meta[k := m], l) == At(meta, l) + {k};
    assert m.loc != l ==> At(meta[k := m], l) == At(meta, l) - {k};
  }

  lemma AtRemove(meta: map<Bytes, Meta>, k: Bytes, l: Loc)
    ensures |At(meta - {k}, l)| == |At(meta, l)| - Count(meta, k, l)
  {
    assert At(meta - {k}, l) == At(meta, l) - {k};
  }

  /** The two counters hold the sizes of the two live populations. */
  ghost predicate Counted(meta: map<Bytes, Meta>, smallCount: int, mainCount: int) {
    smallCount == |At(meta, Small)| && mainCount == |At(meta, Main)|
  }

  ghost function Count(meta: map<Bytes, Meta>, k: Bytes, l: Loc): nat {
    if k in meta && meta[k].loc == l then 1 else 0
  }

  lemma CountedUpdate(meta: map<Bytes, Meta>, sc: nat, mc: nat, k: Bytes, m: Meta)
    requires Counted(meta, sc, mc)
    ensures Counted(meta[k := m],
                    sc - Count(meta, k, Small) + (if m.loc == Small then 1 else 0),
                    mc - Count(meta, k, Main) + (if m.loc == Main then 1 else 0))
  {
    AtUpdate(meta, k, m, Small);
    AtUpdate(meta, k, m, Main);
  }

  lemma CountedRemove(meta: map<Bytes, Meta>, sc: nat, mc: nat, k: Bytes)
    requires Counted(meta, sc, mc)
    ensures Counted(meta - {k}, sc - Count(meta, k, Small), mc - Count(meta, k, Main))
    ensures Count(meta, k, Small) <= sc && Count(meta, k, Main) <= mc
  {
    AtRemove(meta, k, Small);
    AtRemove(meta, k, Main);
  }

  lemma FreqsUpdate(meta: map<Bytes, Meta>, k: Bytes, m: Meta)
    requires k in meta
    ensures Total(Freqs(meta[k := m])) == Total(Freqs(meta)) - meta[k].freq + m.freq
  {
    TotalUpdate(Freqs(meta), k, m.freq);
    assert Freqs(meta[k := m]) == Freqs(meta)[k := m.freq];
  }

  lemma EarnedMain(h: seq<Event>, members: set<Bytes>, meta: map<Bytes, Meta>, k: Bytes, freq: nat)
    requires Earned(h, members, meta) && k in meta
    requires meta[k].loc == Main || meta[k].freq > PROMOTE_THRESHOLD
    ensures Earned(h, members, meta[k := Meta(freq, Main)])
  {
  }

  /** Popping the small queue: a stale reference is no loss, a live one leaves the small population. */
  lemma PopSmall(small: seq<Bytes>, main: seq<Bytes>, meta: map<Bytes, Meta>)
    requires Queued(small, main, meta) && small != []
    ensures var k := small[0];
            if k in meta && meta[k].loc == Small
            then && Queued(small[1..], main + [k], meta[k := Meta(0, Main)])
                 && Queued(small[1..], main, meta - {k})
            else Queued(small[1..], main, meta)
  {
    assert forall k | k in small :: k == small[0] || k in small[1..];
  }

  lemma PopMain(small: seq<Bytes>, main: seq<Bytes>, meta: map<Bytes, Meta>)
    requires Queued(small, main, meta) && main != []
    ensures var k := main[0];
            if k in meta && meta[k].loc == Main
            then && (meta[k].freq > 0 ==> Queued(small, main[1..] + [k], meta[k := Meta(meta[k].freq - 1, Main)]))
                 && Queued(small, main[1..], meta - {k})
            else Queued(small, main[1..], meta)
  {
    assert forall k | k in main :: k == main[0] || k in main[1..];
  }

  lemma NoneLive(meta: map<Bytes, Meta>)
    requires Counted(meta, 0, 0)
    ensures meta == map[]
  {
    assert forall k | k in meta :: k in At(meta, Small) || k in At(meta, Main);
  }

  lemma SomeLive(meta: map<Bytes, Meta>, sc: nat, mc: nat)
    requires Counted(meta, sc, mc) && sc + mc > 0
    ensures meta != map[]
  {
    assert At(map[], Small) == {} && At(map[], Main) == {};
  }

  /** A positive counter means a non-empty queue: the "queue drained" branches are never reached. */
  lemma LiveIsQueued(small: seq<Bytes>, main: seq<Bytes>, meta: map<Bytes, Meta>, sc: nat, mc: nat)
    requires Queued(small, main, meta) && Counted(meta, sc, mc)
    ensures sc > 0 ==> small != []
    ensures mc > 0 ==> main != []
  {
    if sc > 0 {
      var k :| k in At(meta, Small);
    }
    if mc > 0 {
      var k :| k in At(meta, Main);
    }
  }

  // ---------- who leaves, as passes over the queues ----------

  /** The queues front first, the bookkeeping of live keys, and the remembered evictions. */
  datatype View = View(small: seq<Bytes>, main: seq<Bytes>, meta: map<Bytes, Meta>, queue: seq<Bytes>, members: set<Bytes>)

  ghost function Size(meta: map<Bytes, Meta>): nat {
    |At(meta, Small)| + |At(meta, Main)|
  }

  /** Drops the oldest remembered keys until at most `cap` are left. */
  function Forget(queue: seq<Bytes>, members: set<Bytes>, cap: nat): (seq<Bytes>, set<Bytes>) {
    if |members| <= cap || queue == [] then (queue, members) else Forget(queue[1..], members - {queue[0]}, cap)
  }

  datatype Victim = Victim(key: Bytes, from: Loc)

  ghost function Tag(r: Option<Bytes>, from: Loc): Option<Victim> {
    if r.None? then None else Some(Victim(r.value, from))
  }

  /** The front of the small queue: skipped when stale, promoted when touched enough, else evicted. */
  ghost function SmallPass(v: View): (View, Option<Victim>)
    requires v.small != []
  {
    var k, rest := v.small[0], v.(small := v.small[1..]);
    if k !in v.meta || v.meta[k].loc != Small then (rest, None)
    else if v.meta[k].freq > PROMOTE_THRESHOLD
    then (rest.(main := v.main + [k], meta := v.meta[k := Meta(0, Main)]), None)
    else
      var meta := v.meta - {k};
      var (queue, members) := Forget(v.queue + [k], v.members + {k}, Max(Size(meta), GHOST_MIN));
      (rest.(meta := meta, queue := queue, members := members), Some(Victim(k, Small)))
  }

  /** The front of the main queue: skipped when stale, sent round again while it has hits left, else evicted. */
  ghost function MainPass(v: View): (View, Option<Victim>)
    requires v.main != []
  {
    var k, rest := v.main[0], v.main[1..];
    if k !in v.meta || v.meta[k].loc != Main then (v.(main := rest), None)
    else if v.meta[k].freq > 0
    then (v.(main := rest + [k], meta := v.meta[k := Meta(v.meta[k].freq - 1, Main)]), None)
    else (v.(main := rest, meta := v.meta - {k}), Some(Victim(k, Main)))
  }

  /** The small queue pays while it holds at least its share of the live keys. */
  ghost predicate SmallPays(meta: map<Bytes, Meta>) {
    var s, m := |At(meta, Small)|, |At(meta, Main)|;
    m == 0 || (s > 0 && s * 100 >= (s + m) * SMALL_PCT)
  }

  ghost function Pass(v: View): (View, Option<Victim>) {
    if SmallPays(v.meta) then (if v.small == [] then (v, None) else SmallPass(v))
    else (if v.main == [] then (v, None) else MainPass(v))
  }

  /** `n` passes, or as many as it takes to find a victim. */
  ghost function Passes(v: View, n: nat): (View, Option<Victim>) {
    if n == 0 then (v, None)
    else
      var (u, r) := Passes(v, n - 1);
      if r.Some? then (u, r) else Pass(u)
  }

  lemma SizeIs(meta: map<Bytes, Meta>, sc: nat, mc: nat)
    requires Counted(meta, sc, mc)
    ensures Size(meta) == sc + mc
  {
  }

  lemma PaysByCounts(meta: map<Bytes, Meta>, sc: nat, mc: nat)
    requires Counted(meta, sc, mc)
    ensures SmallPays(meta) <==> mc == 0 || (sc > 0 && sc * 100 >= (sc + mc) * SMALL_PCT)
  {
  }

  lemma GhostsApart(queue: seq<Bytes>, members: set<Bytes>, live: set<Bytes>)
    requires GhostsOk(queue, members, live)
    ensures members !! live
  {
  }

  /** Passing over keys never adds a hit, never demotes, and promotes only what was touched enough. */
  ghost predicate Survives(was: map<Bytes, Meta>, now: map<Bytes, Meta>) {
    forall k | k in now ::
      && k in was
      && (was[k].loc == Main ==> now[k].loc == Main && now[k].freq <= was[k].freq)
      && (was[k].loc == Small ==> now[k] == was[k] || (now[k].loc == Main && was[k].freq > PROMOTE_THRESHOLD))
  }

  lemma {:induction false} PassesSurvive(v: View, n: nat)
    ensures Survives(v.meta, Passes(v, n).0.meta)
  {
    hide SmallPays;
    if n > 0 {
      PassesSurvive(v, n - 1);
    }
  }

  lemma {:induction false} PassesStable(v: View, n: nat, m: nat)
    requires n <= m && Passes(v, n).1.Some?
    ensures Passes(v, m) == Passes(v, n)
    decreases m
  {
    if n < m {
      PassesStable(v, n, m - 1);
    }
  }

  /** The state after an eviction and its victim, if the passes find one. */
  ghost function Evict(v: View): (View, Option<Victim>) {
    if exists n :: Passes(v, n).1.Some? then
      var n :| Passes(v, n).1.Some?;
      Passes(v, n)
    else (v, None)
  }

  lemma {:induction false} EvictIs(v: View, n: nat)
    requires Passes(v, n).1.Some?
    ensures Evict(v) == Passes(v, n)
  {
    hide Passes;
    var m :| Passes(v, m).1.Some? && Evict(v) == Passes(v, m);
    if n <= m {
      PassesStable(v, n, m);
    } else {
      PassesStable(v, m, n);
    }
  }

  lemma {:induction false} NothingToEvict(v: View, n: nat)
    requires v.meta == map[]
    ensures Passes(v, n).1.None? && Passes(v, n).0.meta == map[]
  {
    hide SmallPays;
    if n > 0 {
      NothingToEvict(v, n - 1);
    }
  }

  lemma NoVictim(v: View)
    requires v.meta == map[]
    ensures Evict(v) == (v, None)
  {
    hide Passes;
    forall m {:trigger Passes(v, m)} | m >= 0 { NothingToEvict(v, m); }
  }

  // ---------- the other calls on the view ----------

  ghost function Admitted(v: View, k: Bytes): View {
    if k in v.members
    then v.(main := v.main + [k], meta := v.meta[k := Meta(0, Main)], members := v.members - {k})
    else v.(small := v.small + [k], meta := v.meta[k := Meta(0, Small)])
  }

  ghost function Bumped(v: View, k: Bytes): View {
    if k in v.meta then v.(meta := v.meta[k := Meta(Min(v.meta[k].freq + 1, FREQ_MAX), v.meta[k].loc)]) else v
  }

  ghost function Released(v: View, k: Bytes): View {
    v.(meta := v.meta - {k})
  }

  class S3Fifo {
    var small: seq<Bytes>
    var main: seq<Bytes>
    var ghostQueue: seq<Bytes>
    var meta: map<Bytes, Meta>
    var ghostSet: set<Bytes>
    var smallCount: nat
    var mainCount: nat
    ghost var history: seq<Event>

    ghost predicate Valid()
      reads this
    {
      && Counted(meta, smallCount, mainCount)
      && Queued(small, main, meta)
      && GhostsOk(ghostQueue, ghostSet, meta.Keys)
      && Earned(history, ghostSet, meta)
    }

    constructor ()
      ensures Valid() && Shown() == NOTHING && history == []
    {
      small, main, ghostQueue := [], [], [];
      meta, ghostSet := map[], {};
      smallCount, mainCount := 0, 0;
      history := [];
    }

    ghost function Shown(): View
      reads this
    {
      View(small, main, meta, ghostQueue, ghostSet)
    }

    function Len(): nat
      reads this
    {
      smallCount + mainCount
    }

    /** A new key enters: into main if it is remembered as evicted, into small otherwise. */
    method Insert(key: Bytes)
      requires Valid() && key !in meta
      modifies this
      ensures Valid() && history == old(history) + [Inserted(key, key in old(ghostSet))]
      ensures Shown() == Admitted(old(Shown()), key)
    {
      hide Earned, Counted;
      EarnedInsert(history, ghostSet, meta, key);
      history := history + [Inserted(key, key in ghostSet)];
      var fromGhost := key in ghostSet;
      ghostSet := ghostSet - {key};
      CountedUpdate(meta, smallCount, mainCount, key, Meta(0, if fromGhost then Main else Small));
      if fromGhost {
        meta := meta[key := Meta(0, Main)];
        main := main + [key];
        mainCount := mainCount + 1;
      } else {
        assert ghostSet == old(ghostSet);
        meta := meta[key := Meta(0, Small)];
        small := small + [key];
        smallCount := smallCount + 1;
      }
    }

    /** A hit bumps the counter, up to its cap; an untracked key changes nothing. */
    method Touch(key: Bytes)
      requires Valid()
      modifies `meta, `history
      ensures Valid() && history == old(history) + [Touched(key)]
      ensures Shown() == Bumped(old(Shown()), key)
    {
      hide Earned, Counted;
      EarnedTouch(history, ghostSet, meta, key);
      history := history + [Touched(key)];
      if key in meta {
        CountedUpdate(meta, smallCount, mainCount, key, meta[key].(freq := Min(meta[key].freq + 1, FREQ_MAX)));
        meta := meta[key := meta[key].(freq := Min(meta[key].freq + 1, FREQ_MAX))];
      }
    }

    /** A key leaves; its queue references stay behind as stale ones. */
    method Remove(key: Bytes)
      requires Valid()
      modifies `meta, `smallCount, `mainCount
      ensures Valid() && Shown() == Released(old(Shown()), key)
    {
      hide Counted;
      CountedRemove(meta, smallCount, mainCount, key);
      if key in meta {
        match meta[key].loc {
          case Small => smallCount := smallCount - 1;
          case Main => mainCount := mainCount - 1;
        }
      }
      meta := meta - {key};
    }

    /**
     * The next victim: a live key, exactly that key leaves, and the search takes at most one step
     * more than the potential, however many stale references it meets. Who it is follows from the
     * order of the queues, and the others keep their standing.
     */
    method EvictOne() returns (r: Option<Bytes>, ghost from: Loc, ghost steps: nat)
      requires Valid()
      modifies this
      ensures Valid()
      ensures r.None? <==> old(meta) == map[]
      ensures r.None? ==> Shown() == old(Shown()) && history == old(history)
      ensures r.Some? ==> r.value in old(meta) && meta.Keys == old(meta.Keys) - {r.value}
      ensures r.Some? ==> history == old(history) + [Evicted(r.value, from)]
      ensures r.Some? && from == Small ==> |ghostSet| <= Max(Len(), GHOST_MIN)
      ensures steps <= old(Potential(small, main, meta)) + 1
      ensures r.Some? ==> (Shown(), Tag(r, from)) == Passes(old(Shown()), steps)
      ensures (Shown(), Tag(r, from)) == Evict(old(Shown()))
      ensures Survives(old(meta), meta)
    {
      hide Queued, GhostsOk, Earned, SmallPass, MainPass, Counted, SmallPays;
      steps := 0;
      while true
        invariant Valid()
        invariant meta.Keys == old(meta.Keys) && history == old(history)
        invariant steps + Potential(small, main, meta) <= old(Potential(small, main, meta))
        invariant old(meta) == map[] ==> meta == map[]
        invariant Passes(old(Shown()), steps) == (Shown(), None)
        invariant old(meta) == map[] ==> Shown() == old(Shown())
        decreases Potential(small, main, meta)
      {
        if smallCount == 0 && mainCount == 0 {
          NoneLive(meta);
          assert old(meta) == map[];
          NoVictim(old(Shown()));
          return None, Small, steps + 1;
        }
        SomeLive(meta, smallCount, mainCount);
        steps := steps + 1;
        LiveIsQueued(small, main, meta, smallCount, mainCount);
        PassesSurvive(old(Shown()), steps);
        PaysByCounts(meta, smallCount, mainCount);
        var useSmall :=
          mainCount == 0
          || (smallCount > 0 && smallCount * 100 >= (smallCount + mainCount) * SMALL_PCT);
        if useSmall {
          r := StepSmall();
          from := Small;
        } else {
          r := StepMain();
          from := Main;
        }
        if r.Some? {
          EvictIs(old(Shown()), steps);
          return;
        }
      }
    }

    /** One step on the small queue: skip a stale reference, promote, or evict. */
    method StepSmall() returns (r: Option<Bytes>)
      requires Valid() && smallCount > 0
      modifies this
      ensures Valid()
      ensures r.None? ==> meta.Keys == old(meta.Keys) && history == old(history)
                          && Potential(small, main, meta) < old(Potential(small, main, meta))
      ensures r.Some? ==> r.value in old(meta) && meta.Keys == old(meta.Keys) - {r.value}
                          && history == old(history) + [Evicted(r.value, Small)]
                          && |ghostSet| <= Max(Len(), GHOST_MIN)
      ensures old(small) != [] && (Shown(), Tag(r, Small)) == SmallPass(old(Shown()))
    {
      hide Counted, Freqs, Queued, Earned, GhostsOk, Forget, Size;
      LiveIsQueued(small, main, meta, smallCount, mainCount);
      PopSmall(small, main, meta);
      var k := small[0];
      small := small[1..];
      if k !in meta || meta[k].loc != Small {
        return None;
      }
      if meta[k].freq > PROMOTE_THRESHOLD {
        CountedUpdate(meta, smallCount, mainCount, k, Meta(0, Main));
        FreqsUpdate(meta, k, Meta(0, Main));
        EarnedMain(history, ghostSet, meta, k, 0);
        meta := meta[k := Meta(0, Main)];
        assert meta.Keys == old(meta.Keys);
        smallCount := smallCount - 1;
        mainCount := mainCount + 1;
        main := main + [k];
        r := None;
      } else {
        CountedRemove(meta, smallCount, mainCount, k);
        GhostsApart(ghostQueue, ghostSet, meta.Keys);
        EarnedEvict(history, ghostSet, meta, k, Small);
        meta := meta - {k};
        smallCount := smallCount - 1;
        history := history + [Evicted(k, Small)];
        assert meta.Keys + {k} == old(meta.Keys);
        SizeIs(meta, smallCount, mainCount);
        PushGhost(k);
        r := Some(k);
      }
    }

    /** One step on the main queue: skip a stale reference, give a second chance, or evict. */
    method StepMain() returns (r: Option<Bytes>)
      requires Valid() && mainCount > 0
      modifies this
      ensures Valid()
      ensures r.None? ==> meta.Keys == old(meta.Keys) && history == old(history)
                          && Potential(small, main, meta) < old(Potential(small, main, meta))
      ensures r.Some? ==> r.value in old(meta) && meta.Keys == old(meta.Keys) - {r.value}
                          && history == old(history) + [Evicted(r.value, Main)]
      ensures old(main) != [] && (Shown(), Tag(r, Main)) == MainPass(old(Shown()))
    {
      hide Counted, Freqs, Queued, Earned;
      LiveIsQueued(small, main, meta, smallCount, mainCount);
      PopMain(small, main, meta);
      var k := main[0];
      main := main[1..];
      if k !in meta || meta[k].loc != Main {
        return None;
      }
      if meta[k].freq > 0 {
        CountedUpdate(meta, smallCount, mainCount, k, Meta(meta[k].freq - 1, Main));
        FreqsUpdate(meta, k, Meta(meta[k].freq - 1, Main));
        EarnedMain(history, ghostSet, meta, k, meta[k].freq - 1);
        meta := meta[k := Meta(meta[k].freq - 1, Main)];
        main := main + [k];
        r := None;
      } else {
        CountedRemove(meta, smallCount, mainCount, k);
        EarnedEvict(history, ghostSet, meta, k, Main);
        meta := meta - {k};
        mainCount := mainCount - 1;
        history := history + [Evicted(k, Main)];
        r := Some(k);
      }
    }

    /** Remembers an evicted key, then forgets the oldest ones beyond the cap. */
    method PushGhost(key: Bytes)
      requires GhostsOk(ghostQueue, ghostSet, meta.Keys + {key}) && key !in meta
      modifies `ghostQueue, `ghostSet
      ensures GhostsOk(ghostQueue, ghostSet, meta.Keys)
      ensures ghostSet <= old(ghostSet) + {key}
      ensures |ghostSet| <= Max(Len(), GHOST_MIN)
      ensures (ghostQueue, ghostSet) == Forget(old(ghostQueue) + [key], old(ghostSet) + {key}, Max(Len(), GHOST_MIN))
    {
      ghostSet := ghostSet + {key};
      ghostQueue := ghostQueue + [key];
      var cap := Max(Len(), GHOST_MIN);
      while |ghostSet| > cap
        invariant GhostsOk(ghostQueue, ghostSet, meta.Keys)
        invariant ghostSet <= old(ghostSet) + {key}
        invariant Forget(ghostQueue, ghostSet, cap) == Forget(old(ghostQueue) + [key], old(ghostSet) + {key}, cap)
        decreases |ghostQueue|
      {
        if ghostQueue != [] {
          var oldest := ghostQueue[0];
          ghostQueue := ghostQueue[1..];
          ghostSet := ghostSet - {oldest};
        } else {
          break;
        }
      }
    }
  }

  // ---------- whole runs ----------

  datatype PolicyCall = Admit(key: Bytes) | Hit(key: Bytes) | Drop(key: Bytes) | EvictNext

  /** Where a run of calls leads: the view, what the calls answered, and what happened. */
  datatype Course = Course(view: View, answers: seq<Option<Bytes>>, history: seq<Event>)

  const NOTHING := View([], [], map[], [], {})

  /** One call; admitting a tracked key is not a call the store makes, and does nothing here. */
  ghost function Taken(c: Course, call: PolicyCall): Course {
    var v := c.view;
    match call
    case Admit(k) =>
      if k in v.meta then c.(answers := c.answers + [None])
      else Course(Admitted(v, k), c.answers + [None], c.history + [Inserted(k, k in v.members)])
    case Hit(k) => Course(Bumped(v, k), c.answers + [None], c.history + [Touched(k)])
    case Drop(k) => Course(Released(v, k), c.answers + [None], c.history)
    case EvictNext =>
      var (u, x) := Evict(v);
      if x.None? then c.(view := u, answers := c.answers + [None])
      else Course(u, c.answers + [Some(x.value.key)], c.history + [Evicted(x.value.key, x.value.from)])
  }

  ghost function CourseOf(calls: seq<PolicyCall>): (c: Course)
    ensures |c.answers| == |calls|
  {
    if calls == [] then Course(NOTHING, [], []) else Taken(CourseOf(calls[..|calls| - 1]), calls[|calls| - 1])
  }

  /** Which keys are tracked after a call, given what it answered. */
  ghost function KeysAfter(keys: set<Bytes>, call: PolicyCall, a: Option<Bytes>): set<Bytes> {
    match call
    case Admit(k) => keys + {k}
    case Hit(_) => keys
    case Drop(k) => keys - {k}
    case EvictNext => if a.Some? then keys - {a.value} else keys
  }

  /** An eviction answers with a tracked key, and with nothing exactly when none is tracked. */
  ghost predicate GoodAnswer(keys: set<Bytes>, call: PolicyCall, a: Option<Bytes>) {
    call.EvictNext? ==> (a.None? <==> keys == {}) && (a.Some? ==> a.value in keys)
  }

  ghost function Tracked(calls: seq<PolicyCall>, answers: seq<Option<Bytes>>): set<Bytes>
    requires |calls| == |answers|
  {
    if calls == [] then {}
    else
      var n := |calls| - 1;
      KeysAfter(Tracked(calls[..n], answers[..n]), calls[n], answers[n])
  }

  /** Every answer of the run was good in its turn. */
  ghost predicate GoodAnswers(calls: seq<PolicyCall>, answers: seq<Option<Bytes>>)
    requires |calls| == |answers|
  {
    calls != [] ==>
      var n := |calls| - 1;
      && GoodAnswers(calls[..n], answers[..n])
      && GoodAnswer(Tracked(calls[..n], answers[..n]), calls[n], answers[n])
  }

  /** A push to the ghost set was the last thing that happened. */
  ghost predicate JustPushed(calls: seq<PolicyCall>, c: Course) {
    && calls != [] && calls[|calls| - 1].EvictNext? && c.answers != [] && c.answers[|c.answers| - 1].Some?
    && c.history != [] && c.history[|c.history| - 1].Evicted? && c.history[|c.history| - 1].from == Small
  }

  ghost predicate SoundView(v: View, h: seq<Event>) {
    Queued(v.small, v.main, v.meta) && GhostsOk(v.queue, v.members, v.meta.Keys) && Earned(h, v.members, v.meta)
  }

  /** What holds at the end of every run, so after every call of one. */
  ghost predicate SoundCourse(calls: seq<PolicyCall>, c: Course)
    requires |c.answers| == |calls|
  {
    && c.view.meta.Keys == Tracked(calls, c.answers)
    && GoodAnswers(calls, c.answers)
    && SoundView(c.view, c.history)
    && (JustPushed(calls, c) ==> |c.view.members| <= Max(Size(c.view.meta), GHOST_MIN))
  }

  lemma SoundNext(calls: seq<PolicyCall>, i: nat, c: Course, d: Course, a: Option<Bytes>)
    requires i < |calls| && |c.answers| == i && c == CourseOf(calls[..i]) && SoundCourse(calls[..i], c)
    requires d == Taken(c, calls[i]) && d.answers == c.answers + [a] && SoundView(d.view, d.history)
    requires d.view.meta.Keys == KeysAfter(c.view.meta.Keys, calls[i], a) && GoodAnswer(c.view.meta.Keys, calls[i], a)
    requires calls[i].EvictNext? && a.Some? ==>
               && d.history != [] && d.history[|d.history| - 1].Evicted?
               && (d.history[|d.history| - 1].from == Small ==> |d.view.members| <= Max(Size(d.view.meta), GHOST_MIN))
    ensures d == CourseOf(calls[..i + 1]) && SoundCourse(calls[..i + 1], d)
  {
    hide SoundView, Taken, KeysAfter, GoodAnswer, Size;
    assert calls[..i + 1][..i] == calls[..i] && d.answers[..i] == c.answers;
  }

  lemma SoundStart(calls: seq<PolicyCall>)
    ensures CourseOf(calls[..0]) == Course(NOTHING, [], []) && SoundCourse(calls[..0], CourseOf(calls[..0]))
  {
    assert calls[..0] == [];
  }

  /** One call on the policy is one step of the course. */
  method TakeCall(p: S3Fifo, call: PolicyCall, ghost c: Course) returns (a: Option<Bytes>)
    requires p.Valid() && c.view == p.Shown() && c.history == p.history
    modifies p
    ensures p.Valid() && Course(p.Shown(), c.answers + [a], p.history) == Taken(c, call)
    ensures p.meta.Keys == KeysAfter(old(p.meta.Keys), call, a) && GoodAnswer(old(p.meta.Keys), call, a)
    ensures SoundView(p.Shown(), p.history)
    ensures call.EvictNext? && a.Some? ==>
              && p.history != [] && p.history[|p.history| - 1].Evicted?
              && (p.history[|p.history| - 1].from == Small ==> |p.ghostSet| <= Max(Size(p.meta), GHOST_MIN))
  {
    hide Queued, GhostsOk, Earned, Passes, Survives, Potential, Evict, Counted;
    a := None;
    match call {
      case Admit(k) =>
        if k !in p.meta {
          p.Insert(k);
        }
        assert p.meta.Keys == old(p.meta.Keys) + {k};
      case Hit(k) =>
        p.Touch(k);
        assert p.meta.Keys == old(p.meta.Keys);
      case Drop(k) =>
        p.Remove(k);
        assert p.meta.Keys == old(p.meta.Keys) - {k};
      case EvictNext =>
        ghost var from, steps;
        a, from, steps := p.EvictOne();
        SizeIs(p.meta, p.smallCount, p.mainCount);
    }
  }

  /**
   * Any run of the policy follows its course, and every course is sound: victims are tracked keys,
   * evictions fail exactly when nothing is tracked, the ghost set is disjoint from the live keys and
   * within its bound after each push, and a key is in the main queue only if its last insertion
   * found it in the ghost set or it was touched twice since.
   */
  method Run(calls: seq<PolicyCall>) returns (p: S3Fifo, answers: seq<Option<Bytes>>)
    ensures fresh(p) && p.Valid()
    ensures Course(p.Shown(), answers, p.history) == CourseOf(calls)
    ensures SoundCourse(calls, CourseOf(calls))
  {
    hide SoundView, SoundCourse, Taken, CourseOf, KeysAfter, GoodAnswer, Size, S3Fifo.Valid;
    p := new S3Fifo();
    answers := [];
    SoundStart(calls);
    for i := 0 to |calls|
      invariant |answers| == i && fresh(p) && p.Valid()
      invariant Course(p.Shown(), answers, p.history) == CourseOf(calls[..i])
      invariant SoundCourse(calls[..i], CourseOf(calls[..i]))
    {
      ghost var c := CourseOf(calls[..i]);
      assert c.view == p.Shown() && c.answers == answers && c.history == p.history;
      var a := TakeCall(p, calls[i], c);
      SoundNext(calls, i, c, Course(p.Shown(), c.answers + [a], p.history), a);
      answers := answers + [a];
    }
    assert calls[..|calls|] == calls;
  }
}
