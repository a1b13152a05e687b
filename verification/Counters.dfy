/** Counters: any interleaving of increments, and of anything else on other keys, adds up. */
module Counters {
  import opened Basics
  import opened Decimal
  import opened Values
  import opened Keyspace
  import Stores

  // ---------- sums ----------

  function Sum(ds: seq<int>): int {
    if ds == [] then 0 else Sum(ds[..|ds| - 1]) + ds[|ds| - 1]
  }

  /** Every partial sum is a signed 64-bit number. */
  predicate AllFit(v: int, ds: seq<int>) {
    IsI64(v + Sum(ds)) && (ds != [] ==> AllFit(v, ds[..|ds| - 1]))
  }

  /** Adding in turn, passing over what would overflow. */
  function Tally(v: int, ds: seq<int>): int {
    if ds == [] then v
    else
      var t, d := Tally(v, ds[..|ds| - 1]), ds[|ds| - 1];
      if IsI64(t + d) then t + d else t
  }

  predicate NonePassedOver(v: int, ds: seq<int>) {
    ds != [] ==>
      var init := ds[..|ds| - 1];
      NonePassedOver(v, init) && IsI64(Tally(v, init) + ds[|ds| - 1])
  }

  /** No addition is passed over if and only if every partial sum fits, and then they all count. */
  lemma {:induction false} TallyIsSum(v: int, ds: seq<int>)
    requires IsI64(v)
    ensures AllFit(v, ds) <==> NonePassedOver(v, ds)
    ensures AllFit(v, ds) ==> Tally(v, ds) == v + Sum(ds)
  {
    if ds != [] {
      TallyIsSum(v, ds[..|ds| - 1]);
    }
  }

  lemma {:induction false} SumRemove(ds: seq<int>, i: nat)
    requires i < |ds|
    ensures Sum(ds) == ds[i] + Sum(ds[..i] + ds[i + 1..])
  {
    var n := |ds| - 1;
    if i == n {
      assert ds[..i] + ds[i + 1..] == ds[..n];
    } else {
      var rest := ds[..i] + ds[i + 1..];
      SumRemove(ds[..n], i);
      assert rest[..|rest| - 1] == ds[..n][..i] + ds[..n][i + 1..];
    }
  }

  lemma BagRemove(ds: seq<int>, i: nat)
    requires i < |ds|
    ensures multiset(ds[..i] + ds[i + 1..]) == multiset(ds) - multiset{ds[i]}
  {
    assert ds == ds[..i] + [ds[i]] + ds[i + 1..];
  }

  /** Order does not matter. */
  lemma {:induction false} SumOfBag(a: seq<int>, b: seq<int>)
    requires multiset(a) == multiset(b)
    ensures Sum(a) == Sum(b)
    decreases |a|
  {
    if a == [] {
      assert |multiset(b)| == 0;
    } else {
      var n := |a| - 1;
      assert a[n] in multiset(b);
      var i :| 0 <= i < |b| && b[i] == a[n];
      assert a[..n] + a[n + 1..] == a[..n];
      BagRemove(a, n);
      BagRemove(b, i);
      SumOfBag(a[..n], b[..i] + b[i + 1..]);
      SumRemove(b, i);
    }
  }

  // ---------- one key of a run ----------

  /** The key is free, or holds a number and has no expiry. */
  predicate Countable(db: Db, k: Bytes) {
    k in db ==> db[k].expireAt.None? && db[k].value.Str? && ParseCounter(db[k].value.s).Some?
  }

  function Reading(db: Db, k: Bytes): (n: int)
    requires Countable(db, k)
    ensures IsI64(n)
  {
    if k in db then ParseCounter(db[k].value.s).value else 0
  }

  /** A call that changes the key, if at all, by an increment. */
  predicate Counts(op: Op, k: Bytes) {
    !op.FlushAll? && (OneKey(op) && op.key == k ==> op.IncrBy? || op.Read?)
  }

  predicate Increments(op: Op, k: Bytes) {
    op.IncrBy? && op.key == k
  }

  function Deltas(run: seq<TimedOp>, k: Bytes): seq<int> {
    if run == [] then []
    else
      var op := run[|run| - 1].op;
      Deltas(run[..|run| - 1], k) + (if Increments(op, k) then [op.delta] else [])
  }

  function IncrAnswer(n: int, d: int): Answer {
    if IsI64(n + d) then Number(n + d) else Fail(Overflow)
  }

  lemma StaysLive(db: Db, k: Bytes, now: nat)
    requires Countable(db, k)
    ensures Cell(Live(db, now), k) == Cell(db, k)
  {
  }

  lemma CountStep(db: Db, op: Op, now: nat, k: Bytes)
    requires Countable(db, k) && Counts(op, k)
    ensures var (after, a) := Apply(db, op, now); var n := Reading(db, k);
            && Countable(after, k)
            && (if Increments(op, k)
                then Reading(after, k) == Tally(n, [op.delta]) && a == IncrAnswer(n, op.delta)
                  && (IsI64(n + op.delta) ==> Cell(after, k) == Some(Entry(Str(DecimalOf(n + op.delta)), None)))
                else Cell(after, k) == Cell(db, k))
  {
    hide Live, ParseCounter, DecimalOf, ReadCell, SetCell, AppendCell, EditCell;
    StaysLive(db, k, now);
    if Increments(op, k) {
      var n := Reading(db, k);
      assert [op.delta][..0] == [];
      assert Tally(n, [op.delta]) == if IsI64(n + op.delta) then n + op.delta else n;
      if IsI64(n + op.delta) {
        ParseCounterWritten(n + op.delta);
      }
    }
  }

  predicate AllCount(run: seq<TimedOp>, k: Bytes) {
    forall i | 0 <= i < |run| :: Counts(run[i].op, k)
  }

  /** The counter after a run: every increment that did not overflow, and nothing else. */
  lemma {:induction false} CounterTally(db: Db, run: seq<TimedOp>, k: Bytes)
    requires Countable(db, k) && AllCount(run, k)
    ensures Countable(State(db, run), k)
    ensures Reading(State(db, run), k) == Tally(Reading(db, k), Deltas(run, k))
  {
    hide Apply, Countable, Counts, Increments;
    if run != [] {
      var init, last := run[..|run| - 1], run[|run| - 1];
      CounterTally(db, init, k);
      CountStep(State(db, init), last.op, last.now, k);
      TallySnoc(Reading(db, k), Deltas(init, k), last.op, k);
      SameReading(State(db, init), State(db, run), k);
    }
  }

  lemma {:induction false} TallySnoc(v: int, ds: seq<int>, op: Op, k: Bytes)
    ensures Increments(op, k) ==> Tally(v, ds + [op.delta]) == Tally(Tally(v, ds), [op.delta])
    ensures ds + [] == ds
  {
    if Increments(op, k) {
      assert (ds + [op.delta])[..|ds|] == ds && [op.delta][..0] == [];
    }
  }

  lemma SameReading(a: Db, b: Db, k: Bytes)
    requires Countable(a, k)
    ensures Cell(a, k) == Cell(b, k) ==> Countable(b, k) && Reading(a, k) == Reading(b, k)
  {
  }

  /** What each increment of a run answers. */
  lemma {:induction false} CounterAnswers(db: Db, run: seq<TimedOp>, k: Bytes, i: nat)
    requires Countable(db, k) && AllCount(run, k) && i < |run| && Increments(run[i].op, k)
    ensures Answers(db, run)[i] == IncrAnswer(Tally(Reading(db, k), Deltas(run[..i], k)), run[i].op.delta)
    decreases |run|
  {
    hide Apply, Countable, Counts;
    var n := |run| - 1;
    if i == n {
      CounterTally(db, run[..n], k);
      CountStep(State(db, run[..n]), run[n].op, run[n].now, k);
    } else {
      CounterAnswers(db, run[..n], k, i);
      assert run[..n][..i] == run[..i];
    }
  }

  /**
   * Counter exactness. If every partial sum fits, the counter ends at the start plus all deltas;
   * any other interleaving of the same increments that stays in range ends at the same number.
   */
  lemma {:induction false} CounterExact(db: Db, run: seq<TimedOp>, other: seq<TimedOp>, k: Bytes)
    requires Countable(db, k) && AllCount(run, k) && AllFit(Reading(db, k), Deltas(run, k))
    ensures Countable(State(db, run), k)
    ensures Reading(State(db, run), k) == Reading(db, k) + Sum(Deltas(run, k))
    ensures AllCount(other, k) && AllFit(Reading(db, k), Deltas(other, k))
         && multiset(Deltas(other, k)) == multiset(Deltas(run, k))
         ==> Countable(State(db, other), k) && Reading(State(db, other), k) == Reading(State(db, run), k)
  {
    hide AllFit, AllCount, State, Countable, Deltas;
    CounterTally(db, run, k);
    TallyIsSum(Reading(db, k), Deltas(run, k));
    if AllCount(other, k) && AllFit(Reading(db, k), Deltas(other, k))
       && multiset(Deltas(other, k)) == multiset(Deltas(run, k)) {
      CounterTally(db, other, k);
      TallyIsSum(Reading(db, k), Deltas(other, k));
      SumOfBag(Deltas(other, k), Deltas(run, k));
    }
  }

  // ---------- the stored text ----------

  lemma {:induction false} NoDeltas(k: Bytes)
    ensures Deltas([], k) == [] && Sum([]) == 0
  {
  }

  lemma DeltasLast(run: seq<TimedOp>, k: Bytes, v: int)
    requires run != []
    ensures var init, op := run[..|run| - 1], run[|run| - 1].op;
            if Increments(op, k)
            then
              && Deltas(run, k) != [] && Sum(Deltas(run, k)) == Sum(Deltas(init, k)) + op.delta
              && (AllFit(v, Deltas(run, k)) ==> AllFit(v, Deltas(init, k)) && IsI64(v + Sum(Deltas(run, k))))
            else Deltas(run, k) == Deltas(init, k)
  {
    var ds := Deltas(run, k);
    if Increments(run[|run| - 1].op, k) {
      assert ds[..|ds| - 1] == Deltas(run[..|run| - 1], k);
    } else {
      assert ds == Deltas(run[..|run| - 1], k);
    }
  }

  /** Once an increment went through, the key holds the decimal text of the number. */
  lemma {:induction false} CounterText(db: Db, run: seq<TimedOp>, k: Bytes)
    requires Countable(db, k) && AllCount(run, k) && AllFit(Reading(db, k), Deltas(run, k))
    ensures Cell(State(db, run), k)
         == if Deltas(run, k) == [] then Cell(db, k)
            else Some(Entry(Str(DecimalOf(Reading(db, k) + Sum(Deltas(run, k)))), None))
  {
    hide Apply, Counts, DecimalOf, ParseCounter, Increments, Deltas, Sum, AllFit, Tally, Countable;
    NoDeltas(k);
    if run != [] {
      var init, last := run[..|run| - 1], run[|run| - 1];
      DeltasLast(run, k, Reading(db, k));
      CounterText(db, init, k);
      CounterExact(db, init, [], k);
      CountStep(State(db, init), last.op, last.now, k);
    }
  }

  lemma {:induction false} StateAppend(db: Db, a: seq<TimedOp>, b: seq<TimedOp>)
    ensures State(db, a + b) == State(State(db, a), b)
    decreases |b|
  {
    hide Apply;
    if b == [] {
      assert a + b == a;
    } else {
      StateAppend(db, a, b[..|b| - 1]);
      assert (a + b)[..|a + b| - 1] == a + b[..|b| - 1];
    }
  }

  /** A read after a run gets the text the key then holds. */
  lemma {:induction false} ReadBack(run: seq<TimedOp>, k: Bytes, now: nat)
    requires Countable(State(map[], run), k)
    ensures var cell := Cell(State(map[], run), k);
            Answers(map[], run + [TimedOp(Read(k, GetString), now)])[|run|]
            == Text(if cell.None? then None else Some(cell.value.value.s))
  {
    hide Live, ParseCounter;
    var whole := run + [TimedOp(Read(k, GetString), now)];
    assert whole[..|run|] == run;
    StaysLive(State(map[], run), k, now);
  }

  /**
   * Clients on a real unbounded store that has seen any calls before: if the key then is free or
   * holds a number, whoever reads after the increments gets that number plus all deltas.
   */
  method CountingClients(n: nat, router: Bytes -> nat, setup: seq<TimedOp>, run: seq<TimedOp>, k: Bytes, now: nat)
    returns (text: Answer)
    requires ClockOk(setup + run + [TimedOp(Read(k, GetString), now)], 0)
    requires var db := State(map[], setup); Countable(db, k) && AllCount(run, k) && AllFit(Reading(db, k), Deltas(run, k))
    ensures var db := State(map[], setup);
            text == Text(if Deltas(run, k) != [] then Some(DecimalOf(Reading(db, k) + Sum(Deltas(run, k))))
                         else if k in db then Some(db[k].value.s) else None)
  {
    hide AllFit, AllCount, DecimalOf, Deltas, Sum, ParseCounter, State, Answers, Reading,
         Stores.StoreRun, Stores.Store.Valid, Stores.Store.Contents, Stores.Store.Images;
    ghost var db := State(map[], setup);
    var whole := setup + run + [TimedOp(Read(k, GetString), now)];
    var st, answers := Stores.Run(n, 0, router, whole);
    text := answers[|whole| - 1];
    StateAppend(map[], setup, run);
    CounterText(db, run, k);
    CounterTally(db, run, k);
    ReadBack(setup + run, k, now);
  }
}
