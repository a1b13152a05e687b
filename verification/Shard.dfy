/** One shard: the entry map, the eviction policy and the byte account, kept in step. */
module Shards {
  import opened Basics
  import opened Decimal
  import opened Values
  import opened Keyspace
  import opened S3Fifos
  import opened Sums

  function LiveCell(db: Db, k: Bytes, now: nat): Option<Entry> {
    if k in db && !Expired(db[k], now) then Some(db[k]) else None
  }

  /** One call with lazy expiry: only the key that is asked for is checked. */
  function LazyApply(db: Db, op: Op, now: nat): (Db, Answer)
    requires OneKey(op)
  {
    var (cell, a) := StepCell(LiveCell(db, op.key, now), op, now);
    (Put(db, op.key, cell), a)
  }

  /** The policy tracks the stored keys; without a budget it is bypassed. */
  ghost predicate Tracks(live: set<Bytes>, keys: set<Bytes>, budget: nat) {
    if budget == 0 then live == {} else live == keys
  }

  // ---------- one call as a function of the shard's whole state ----------

  /** Everything a call can depend on: the entries and the eviction policy's view. */
  datatype Image = Image(entries: Db, view: View)

  ghost function Dropped(im: Image, k: Bytes, budget: nat): Image {
    Image(im.entries - {k}, if budget == 0 || k !in im.entries then im.view else Released(im.view, k))
  }

  ghost function HitOn(im: Image, k: Bytes, budget: nat): Image {
    if budget == 0 then im else im.(view := Bumped(im.view, k))
  }

  ghost function Stored(im: Image, k: Bytes, e: Entry, budget: nat): Image {
    Image(im.entries[k := e], if budget == 0 then im.view else Admitted(im.view, k))
  }

  ghost function Overwritten(im: Image, k: Bytes, e: Entry): Image {
    im.(entries := im.entries[k := e])
  }

  ghost function Checked(im: Image, k: Bytes, now: nat, budget: nat): Image {
    if k in im.entries && Expired(im.entries[k], now) then Dropped(im, k, budget) else im
  }

  /** Evictions until the entries fit. */
  ghost function Shrunk(im: Image, budget: nat): Image
    decreases |im.entries|
  {
    if budget == 0 || TotalCost(im.entries) <= budget then im
    else
      var (v, x) := Evict(im.view);
      if x.None? || x.value.key !in im.entries then im.(view := v)
      else
        assert |im.entries - {x.value.key}| < |im.entries| by { SmallerWithout(im.entries, x.value.key); }
        Shrunk(Dropped(Image(im.entries, v), x.value.key, budget), budget)
  }

  lemma SmallerWithout(db: Db, k: Bytes)
    requires k in db
    ensures |db - {k}| < |db|
  {
    assert (db - {k}).Keys == db.Keys - {k};
    assert |db - {k}| == |(db - {k}).Keys| && |db| == |db.Keys|;
  }

  ghost function Renewed(im: Image, k: Bytes, v: Value, budget: nat): Image {
    if k in im.entries then Stored(Dropped(im, k, budget), k, Entry(v, im.entries[k].expireAt), budget)
    else Stored(im, k, Entry(v, None), budget)
  }

  ghost function EditedImage(im: Image, k: Bytes, e: Edit, budget: nat): Image
    requires k in im.entries && KindOf(im.entries[k].value) == KindOfEdit(e)
  {
    var w := Edited(im.entries[k].value, e).0;
    var hit := HitOn(Overwritten(im, k, im.entries[k].(value := w)), k, budget);
    if IsEmpty(w) then Dropped(hit, k, budget) else Shrunk(hit, budget)
  }

  /** A single-key call: the next state, whatever the budget. */
  ghost function CallImage(before: Image, op: Op, now: nat, budget: nat): Image
    requires OneKey(op)
  {
    var im := Checked(before, op.key, now, budget);
    var k, here := op.key, op.key in im.entries;
    match op
    case Read(_, q) => if here && IsHit(q) then HitOn(im, k, budget) else im
    case SetString(_, v, o) =>
      if (o.nx && here) || (o.xx && !here) then im
      else if here then
        var expiry := if o.keepTtl then im.entries[k].expireAt else o.expireAt;
        Shrunk(HitOn(Overwritten(im, k, Entry(Str(v), expiry)), k, budget), budget)
      else Shrunk(Stored(im, k, Entry(Str(v), o.expireAt), budget), budget)
    case Delete(_) => if here then Dropped(im, k, budget) else im
    case ExpireAt(_, at) => if here then Overwritten(im, k, im.entries[k].(expireAt := at)) else im
    case IncrBy(_, d) =>
      var (cell, a) := IncrCell(Cell(im.entries, k), d);
      if a.Fail? || cell.None? then im else Shrunk(Renewed(im, k, cell.value.value, budget), budget)
    case Append(_, suffix) =>
      var (cell, a) := AppendCell(Cell(im.entries, k), suffix);
      if a.Fail? || cell.None? then im else Shrunk(Renewed(im, k, cell.value.value, budget), budget)
    case Modify(_, e) =>
      if here && KindOf(im.entries[k].value) != KindOfEdit(e) then im
      else EditedImage(if here then im else Stored(im, k, Entry(Fresh(e), None), budget), k, e, budget)
  }

  ghost function PurgedImage(im: Image, now: nat, budget: nat): Image {
    var expired := set k | k in im.entries && Expired(im.entries[k], now);
    Image(im.entries - expired, if budget == 0 then im.view else im.view.(meta := im.view.meta - expired))
  }

  class Shard {
    var entries: Db
    const pol: S3Fifo
    var bytes: nat
    const budget: nat

    ghost predicate Accounted()
      reads this, pol
    {
      && bytes == TotalCost(entries)
      && pol.Valid()
      && Tracks(pol.meta.Keys, entries.Keys, budget)
    }

    ghost predicate Valid()
      reads this, pol
    {
      && Accounted()
      && NoneEmpty(entries)
      && (budget != 0 ==> bytes <= budget)
    }

    ghost function Shown(): Image
      reads this, pol
    {
      Image(entries, pol.Shown())
    }

    constructor (budget: nat)
      ensures Valid() && Shown() == Image(map[], NOTHING) && this.budget == budget && fresh(pol)
    {
      entries := map[];
      pol := new S3Fifo();
      bytes := 0;
      this.budget := budget;
      new;
      assert Costs(map[]) == map[];
    }

    /** Takes a key out of the map, the account and the policy (which may have let it go already). */
    method DropKey(key: Bytes) returns (r: bool)
      requires bytes == TotalCost(entries) && pol.Valid()
      requires Tracks(pol.meta.Keys, entries.Keys, budget) || Tracks(pol.meta.Keys, entries.Keys - {key}, budget)
      modifies `entries, `bytes, pol
      ensures Accounted() && r == (key in old(entries)) && entries == old(entries) - {key}
      ensures pol.history == old(pol.history) && Shown() == Dropped(old(Shown()), key, budget)
    {
      hide Costs, S3Fifo.Valid;
      r := key in entries;
      if r {
        TotalCostDrop(entries, key);
        var n := ValueBytes(entries[key].value);
        bytes := bytes - (KeyOverhead(key) + n);
        entries := entries - {key};
        assert entries.Keys == old(entries.Keys) - {key};
        if budget != 0 {
          pol.Remove(key);
        }
      } else {
        assert entries - {key} == entries && entries.Keys - {key} == entries.Keys;
      }
    }

    method Touch(key: Bytes)
      requires Accounted()
      modifies pol
      ensures Accounted() && pol.history == old(pol.history) + (if budget == 0 then [] else [Touched(key)])
      ensures Shown() == HitOn(old(Shown()), key, budget)
    {
      if budget != 0 {
        pol.Touch(key);
        assert pol.meta.Keys == old(pol.meta.Keys);
      }
    }

    /** Lazy expiry: an expired key is dropped when it is asked for. */
    method IsLive(key: Bytes, now: nat) returns (r: bool)
      requires Accounted()
      modifies `entries, `bytes, pol
      ensures Accounted() && entries == Put(old(entries), key, LiveCell(old(entries), key, now))
      ensures r == (key in entries) && pol.history == old(pol.history)
      ensures Shown() == Checked(old(Shown()), key, now, budget)
    {
      hide S3Fifo.Valid, TotalCost;
      if key in entries && Expired(entries[key], now) {
        var _ := DropKey(key);
        return false;
      }
      r := key in entries;
      assert key in entries ==> entries[key := entries[key]] == entries;
      assert key !in entries ==> entries - {key} == entries;
    }

    /**
     * Evicts until the account is within budget, which is always possible, because every victim is
     * live; and no further: putting the last victim back would go over.
     */
    method EnforceBudget() returns (ghost last: Bytes)
      requires Accounted()
      modifies `entries, `bytes, pol
      ensures Accounted() && SubBindings(entries, old(entries))
      ensures budget == 0 || old(bytes) <= budget ==> entries == old(entries)
      ensures budget != 0 ==> bytes <= budget
      ensures entries != old(entries) ==>
                last in old(entries) && last !in entries && bytes + Cost(last, old(entries)[last]) > budget
      ensures Shown() == Shrunk(old(Shown()), budget)
    {
      hide S3Fifo.Valid, TotalCost, Costs;
      last := [];
      if budget == 0 {
        return;
      }
      while bytes > budget
        invariant Accounted() && SubBindings(entries, old(entries))
        invariant old(bytes) <= budget ==> entries == old(entries)
        invariant entries != old(entries) ==>
                    last in old(entries) && last !in entries && bytes + Cost(last, old(entries)[last]) > budget
        invariant Shrunk(Shown(), budget) == Shrunk(old(Shown()), budget)
        decreases |entries|
      {
        ghost var from, steps;
        var victim;
        victim, from, steps := pol.EvictOne();
        match victim {
          case Some(v) =>
            assert (entries - {v}).Keys == entries.Keys - {v};
            TotalCostDrop(entries, v);
            last := v;
            var _ := DropKey(v);
          case None =>
            EmptyCostsNothing(entries);
            break;
        }
      }
    }

    /** Stores a key that was not there. */
    method PutNew(key: Bytes, value: Value, expireAt: Option<nat>)
      requires Accounted() && key !in entries
      modifies `entries, `bytes, pol
      ensures Accounted() && entries == old(entries)[key := Entry(value, expireAt)]
      ensures Shown() == Stored(old(Shown()), key, Entry(value, expireAt), budget)
    {
      hide S3Fifo.Valid, Costs;
      TotalCostPut(entries, key, Entry(value, expireAt));
      var n := ValueBytes(value);
      bytes := bytes + KeyOverhead(key) + n;
      entries := entries[key := Entry(value, expireAt)];
      if budget != 0 {
        pol.Insert(key);
        assert pol.meta.Keys == old(pol.meta.Keys) + {key};
      }
    }

    /** Replaces the entry of a stored key in place and settles the account by the difference. */
    method Replace(key: Bytes, e: Entry)
      requires Accounted() && key in entries
      modifies `entries, `bytes
      ensures Accounted() && entries == old(entries)[key := e]
      ensures Shown() == Overwritten(old(Shown()), key, e)
    {
      hide S3Fifo.Valid, Costs;
      TotalCostPut(entries, key, e);
      TotalCostDrop(entries, key);
      var before := ValueBytes(entries[key].value);
      var after := ValueBytes(e.value);
      bytes := bytes + after - before;
      entries := entries[key := e];
      assert entries.Keys == old(entries.Keys);
    }

    // ---------- the store calls, run under the shard's lock ----------

    /** Typed reads; those that serve data also count as a hit. */
    method Read(key: Bytes, q: Query, now: nat) returns (a: Answer)
      requires Valid()
      modifies `entries, `bytes, pol
      ensures Valid() && Performed(old(entries), entries, Op.Read(key, q), now, a, budget)
      ensures Shown() == CallImage(old(Shown()), Op.Read(key, q), now, budget)
      ensures pol.history == old(pol.history) + (if budget != 0 && IsHit(q) && key in entries then [Touched(key)] else [])
    {
      hide S3Fifo.Valid, TotalCost, ReadCell, Tracks, IsHit, HitOn, Checked;
      var live := IsLive(key, now);
      AccountShrinks(old(entries), entries);
      if live && IsHit(q) {
        Touch(key);
      }
      a := ReadCell(Cell(entries, key), q, now);
    }

    /** SET: in place over a live key of any type, otherwise as a new key. */
    method Set(key: Bytes, value: Bytes, opts: SetOptions, now: nat) returns (a: Answer)
      requires Valid()
      modifies `entries, `bytes, pol
      ensures Valid() && Performed(old(entries), entries, SetString(key, value, opts), now, a, budget)
      ensures Shown() == CallImage(old(Shown()), SetString(key, value, opts), now, budget)
    {
      hide S3Fifo.Valid, TotalCost, Tracks, Shrunk, Checked, ReadCell, AppendCell, IncrCell, EditCell, EditedImage, Renewed;
      var existed := IsLive(key, now);
      AccountShrinks(old(entries), entries);
      if opts.nx && existed {
        return Flag(false);
      }
      if opts.xx && !existed {
        return Flag(false);
      }
      var expiry := if opts.keepTtl && existed then entries[key].expireAt else opts.expireAt;
      if existed {
        Replace(key, Entry(Str(value), expiry));
        Touch(key);
      } else {
        PutNew(key, Str(value), expiry);
      }
      PutTwice(old(entries), key, LiveCell(old(entries), key, now), Some(Entry(Str(value), expiry)));
      var _ := EnforceBudget();
      a := Flag(true);
    }

    method Del(key: Bytes, now: nat) returns (a: Answer)
      requires Valid()
      modifies `entries, `bytes, pol
      ensures Valid() && Performed(old(entries), entries, Delete(key), now, a, budget)
      ensures Shown() == CallImage(old(Shown()), Delete(key), now, budget)
    {
      hide S3Fifo.Valid, TotalCost, Checked;
      var live := IsLive(key, now);
      AccountShrinks(old(entries), entries);
      if !live {
        return Flag(false);
      }
      PutTwice(old(entries), key, LiveCell(old(entries), key, now), None);
      ghost var before := entries;
      var dropped := DropKey(key);
      AccountShrinks(before, entries);
      a := Flag(dropped);
    }

    method SetExpiry(key: Bytes, at: Option<nat>, now: nat) returns (a: Answer)
      requires Valid()
      modifies `entries, `bytes, pol
      ensures Valid() && Performed(old(entries), entries, ExpireAt(key, at), now, a, budget)
      ensures Shown() == CallImage(old(Shown()), ExpireAt(key, at), now, budget)
    {
      hide S3Fifo.Valid, TotalCost, Checked;
      var live := IsLive(key, now);
      AccountShrinks(old(entries), entries);
      if !live {
        return Flag(false);
      }
      PutTwice(old(entries), key, LiveCell(old(entries), key, now), Some(entries[key].(expireAt := at)));
      SameValueSameCost(entries, key, at);
      entries := entries[key := entries[key].(expireAt := at)];
      a := Flag(true);
    }

    /** INCRBY: reads the number, then drops the key and stores it anew. */
    method Incr(key: Bytes, delta: int, now: nat) returns (a: Answer)
      requires Valid()
      modifies `entries, `bytes, pol
      ensures Valid() && Performed(old(entries), entries, IncrBy(key, delta), now, a, budget)
      ensures Shown() == CallImage(old(Shown()), IncrBy(key, delta), now, budget)
    {
      hide S3Fifo.Valid, TotalCost, ParseCounter, Tracks, DecimalOf, Shrunk, Renewed, Checked, ReadCell, SetCell, AppendCell, EditCell,
           EditedImage, HitOn, Stored, Dropped;
      var existed := IsLive(key, now);
      AccountShrinks(old(entries), entries);
      var cur := 0;
      if existed {
        match entries[key].value {
          case Str(text) =>
            var n := ParseCounter(text);
            if n.None? {
              return Fail(NotInteger);
            }
            cur := n.value;
          case _ => return Fail(WrongType);
        }
      }
      if !IsI64(cur + delta) {
        return Fail(Overflow);
      }
      Restore(key, Str(DecimalOf(cur + delta)), existed);
      PutTwice(old(entries), key, LiveCell(old(entries), key, now), Cell(entries, key));
      var _ := EnforceBudget();
      a := Number(cur + delta);
    }

    method AppendTo(key: Bytes, suffix: Bytes, now: nat) returns (a: Answer)
      requires Valid()
      modifies `entries, `bytes, pol
      ensures Valid() && Performed(old(entries), entries, Append(key, suffix), now, a, budget)
      ensures Shown() == CallImage(old(Shown()), Append(key, suffix), now, budget)
    {
      hide S3Fifo.Valid, TotalCost, Tracks, Shrunk, Renewed, Checked, ReadCell, SetCell, IncrCell, EditCell,
           EditedImage, HitOn, Stored, Dropped;
      var existed := IsLive(key, now);
      AccountShrinks(old(entries), entries);
      if existed && !entries[key].value.Str? {
        return Fail(WrongType);
      }
      var text := (if existed then entries[key].value.s else []) + suffix;
      Restore(key, Str(text), existed);
      PutTwice(old(entries), key, LiveCell(old(entries), key, now), Cell(entries, key));
      var _ := EnforceBudget();
      a := Number(|text|);
    }

    /** Drops a key that exists and stores its new value under the old expiry. */
    method Restore(key: Bytes, value: Value, existed: bool)
      requires Accounted() && existed == (key in entries)
      modifies `entries, `bytes, pol
      ensures Accounted()
      ensures entries == old(entries)[key := Entry(value, if existed then old(entries)[key].expireAt else None)]
      ensures Shown() == Renewed(old(Shown()), key, value, budget)
    {
      hide S3Fifo.Valid, TotalCost;
      var expiry := if existed then entries[key].expireAt else None;
      if existed {
        var _ := DropKey(key);
      }
      PutNew(key, value, expiry);
    }

    /**
     * The shape of every collection write: create the collection if the key is absent, edit it,
     * settle the account, and delete the key again if nothing is left in it.
     */
    method WithCollection(key: Bytes, e: Edit, now: nat) returns (a: Answer)
      requires Valid()
      modifies `entries, `bytes, pol
      ensures Valid() && Performed(old(entries), entries, Modify(key, e), now, a, budget)
      ensures Shown() == CallImage(old(Shown()), Modify(key, e), now, budget)
    {
      hide S3Fifo.Valid, TotalCost, Edited, IsEmpty, Tracks, Shrunk, Stored, Checked, EditedImage, ReadCell, SetCell,
           AppendCell, IncrCell, HitOn, Renewed, Dropped;
      var existed := IsLive(key, now);
      AccountShrinks(old(entries), entries);
      if existed && KindOf(entries[key].value) != KindOfEdit(e) {
        return Fail(WrongType);
      }
      if !existed {
        PutNew(key, Fresh(e), None);
      }
      PutTwice(old(entries), key, LiveCell(old(entries), key, now), Cell(entries, key));
      PutTwice(old(entries), key, Cell(entries, key), Remains(entries[key], Edited(entries[key].value, e).0));
      AccountShrinks(old(entries) - {key}, entries - {key});
      ghost var before := entries;
      a := EditStored(key, e);
      AccountShrinks(Put(before, key, Remains(before[key], Edited(before[key].value, e).0)), entries);
      AccountShrinks(old(entries), old(entries) - {key});
    }

    /** Edits a stored collection; what is left of it stays, an empty one goes. */
    method EditStored(key: Bytes, e: Edit) returns (a: Answer)
      requires Accounted() && key in entries && KindOf(entries[key].value) == KindOfEdit(e)
      modifies `entries, `bytes, pol
      ensures Accounted() && a == EditAnswer(Edited(old(entries)[key].value, e).1)
      ensures Shown() == EditedImage(old(Shown()), key, e, budget)
      ensures var rest := Remains(old(entries)[key], Edited(old(entries)[key].value, e).0);
              && SubBindings(entries, Put(old(entries), key, rest))
              && (budget == 0 || rest.None? || TotalCost(Put(old(entries), key, rest)) <= budget
                  ==> entries == Put(old(entries), key, rest))
              && (budget != 0 && rest.Some? ==> bytes <= budget)
    {
      hide S3Fifo.Valid, TotalCost, Edited, IsEmpty, Tracks, Shrunk;
      var w, r := RunEdit(entries[key].value, e);
      Replace(key, entries[key].(value := w));
      Touch(key);
      a := EditAnswer(r);
      if IsEmpty(w) {
        var _ := DropKey(key);
        assert entries == old(entries) - {key};
      } else {
        var _ := EnforceBudget();
      }
    }

    /** Any single-key call: the answer is exact, and the entries are too unless some were evicted. */
    method Call(op: Op, now: nat) returns (a: Answer)
      requires Valid() && OneKey(op)
      modifies `entries, `bytes, pol
      ensures Valid() && Performed(old(entries), entries, op, now, a, budget)
      ensures Shown() == CallImage(old(Shown()), op, now, budget)
    {
      hide Performed, Valid;
      match op {
        case Read(k, q) => a := Read(k, q, now);
        case SetString(k, v, o) => a := Set(k, v, o, now);
        case Delete(k) => a := Del(k, now);
        case ExpireAt(k, at) => a := SetExpiry(k, at, now);
        case IncrBy(k, d) => a := Incr(k, d, now);
        case Append(k, s) => a := AppendTo(k, s, now);
        case Modify(k, e) => a := WithCollection(k, e, now);
      }
    }

    /** The background sweep of one shard. */
    method Purge(now: nat)
      requires Valid()
      modifies `entries, `bytes, pol
      ensures Valid() && entries == Keyspace.Live(old(entries), now)
      ensures Shown() == PurgedImage(old(Shown()), now, budget)
    {
      hide S3Fifo.Valid, TotalCost, Tracks;
      var expired := set k | k in entries && Expired(entries[k], now);
      var left := expired;
      LiveIsMinus(entries, now);
      assert entries - (expired - left) == entries && pol.meta - (expired - left) == pol.meta;
      while left != {}
        invariant Accounted() && left <= expired
        invariant entries == old(entries) - (expired - left)
        invariant pol.Shown() == if budget == 0 then old(pol.Shown())
                                 else old(pol.Shown()).(meta := old(pol.meta) - (expired - left))
        decreases |left|
      {
        var k :| k in left;
        MinusMore(old(entries), expired - left, k);
        MinusMore(old(pol.meta), expired - left, k);
        assert expired - (left - {k}) == (expired - left) + {k};
        var _ := DropKey(k);
        left := left - {k};
      }
      assert expired - left == expired;
      AccountShrinks(old(entries), entries);
    }
  }

  lemma LiveIsMinus(db: Db, now: nat)
    ensures db - (set k | k in db && Expired(db[k], now)) == Keyspace.Live(db, now)
  {
    assert (db - (set k | k in db && Expired(db[k], now))).Keys == Keyspace.Live(db, now).Keys;
  }

  /** The reads that feed the eviction order. */
  predicate IsHit(q: Query) {
    !q.Exists? && !q.TypeName? && !q.TimeToLive? && !q.StrLen?
  }

  /**
   * The answer is that of the lazy reference; so are the entries, up to evictions, and evictions
   * happen only where the reference's entries would not fit the budget.
   */
  ghost predicate Performed(before: Db, after: Db, op: Op, now: nat, a: Answer, budget: nat)
    requires OneKey(op)
  {
    && a == LazyApply(before, op, now).1
    && SubBindings(after, LazyApply(before, op, now).0)
    && (budget == 0 || TotalCost(LazyApply(before, op, now).0) <= budget ==> after == LazyApply(before, op, now).0)
  }

  function Remains(e: Entry, v: Value): Option<Entry> {
    if IsEmpty(v) then None else Some(e.(value := v))
  }

  /** Writing a key twice is writing it once. */
  lemma PutTwice(db: Db, k: Bytes, a: Option<Entry>, b: Option<Entry>)
    ensures Put(Put(db, k, a), k, b) == Put(db, k, b)
  {
    assert Put(Put(db, k, a), k, b).Keys == Put(db, k, b).Keys;
  }

  /** Entries that stay keep their cost, so a smaller map costs no more and has no more empty values. */
  lemma {:induction false} AccountShrinks(before: Db, after: Db)
    requires SubBindings(after, before)
    ensures TotalCost(after) <= TotalCost(before)
    ensures NoneEmpty(before) ==> NoneEmpty(after)
    decreases |before|
  {
    if k :| k in before && k !in after {
      TotalCostDrop(before, k);
      assert (before - {k}).Keys == before.Keys - {k};
      AccountShrinks(before - {k}, after);
    } else {
      assert before == after;
    }
  }

  lemma SameValueSameCost(db: Db, k: Bytes, at: Option<nat>)
    requires k in db
    ensures TotalCost(db[k := db[k].(expireAt := at)]) == TotalCost(db)
  {
    TotalCostPut(db, k, db[k].(expireAt := at));
  }

  lemma EmptyCostsNothing(db: Db)
    requires db.Keys == {}
    ensures TotalCost(db) == 0
  {
    assert Costs(db) == map[];
  }
}
