/** What the persist flag promises: unflagged commands change nothing, so the log is complete. */
module CommandLog {
  import opened Basics
  import opened Resp
  import opened Values
  import opened Keyspace
  import opened Replies
  import opened Commands
  import opened Stores
  import opened Decimal
  import opened Sums

  // ---------- calls that change nothing ----------

  lemma PutSame(db: Db, k: Bytes)
    ensures Put(db, k, Cell(db, k)) == db
  {
    assert k in db ==> db[k := db[k]] == db;
    assert k !in db ==> db - {k} == db;
  }

  lemma LiveIsLive(db: Db, now: nat)
    ensures Live(Live(db, now), now) == Live(db, now)
  {
    LiveLater(db, now, now);
  }

  predicate Reads(op: Op) {
    op.Read? || op.ListKeys?
  }

  lemma ReadKeeps(db: Db, op: Op, now: nat)
    requires Reads(op)
    ensures Live(Apply(db, op, now).0, now) == Live(db, now)
  {
    LiveIsLive(db, now);
    if op.Read? {
      PutSame(Live(db, now), op.key);
    }
  }

  lemma FailKeeps(db: Db, op: Op, now: nat)
    requires Apply(db, op, now).1.Fail?
    ensures Live(Apply(db, op, now).0, now) == Live(db, now)
  {
    FailedCallChangesNothing(db, op, now);
    LiveIsLive(db, now);
  }

  /** An edit that reports no change made none. */
  lemma NoChange(v: Value, e: Edit)
    requires KindOf(v) == KindOfEdit(e)
    requires e.Pop? || e.HDel? || e.SAdd? || e.SRem? || e.ZRem?
    requires Edited(v, e).1 == Count(0) || Edited(v, e).1 == Items([])
    ensures Edited(v, e).0 == v
  {
    match e
    case Pop(n, left) =>
      assert Popped(v.items, n, left).0 == v.items;
    case HDel(names) => MinusNothing(v.fields, Names(names));
    case SAdd(names) => NothingMoves(v.members, Names(names));
    case SRem(names) => NothingMoves(v.members, Names(names));
    case ZRem(names) => MinusNothing(v.scores, Names(names));
    case _ =>
  }

  lemma IdleEditKeeps(db: Db, k: Bytes, e: Edit, now: nat)
    requires NoneEmpty(Live(db, now))
    requires e.Pop? || e.HDel? || e.SAdd? || e.SRem? || e.ZRem?
    requires Apply(db, Modify(k, e), now).1 == Number(0) || Apply(db, Modify(k, e), now).1 == Listing([])
    ensures Live(Apply(db, Modify(k, e), now).0, now) == Live(db, now)
  {
    hide Edited, IsEmpty;
    var live := Live(db, now);
    var cell := Cell(live, k);
    var v := if cell.None? then Fresh(e) else cell.value.value;
    NoChange(v, e);
    PutSame(live, k);
    LiveIsLive(db, now);
  }

  lemma RefusedSetKeeps(db: Db, k: Bytes, v: Bytes, o: SetOptions, now: nat)
    requires Apply(db, SetString(k, v, o), now).1 != Flag(true)
    ensures Live(Apply(db, SetString(k, v, o), now).0, now) == Live(db, now)
  {
    PutSame(Live(db, now), k);
    LiveIsLive(db, now);
  }

  lemma MissedDeleteKeeps(db: Db, k: Bytes, now: nat)
    requires Apply(db, Delete(k), now).1 != Flag(true)
    ensures Live(Apply(db, Delete(k), now).0, now) == Live(db, now)
  {
    PutSame(Live(db, now), k);
    LiveIsLive(db, now);
  }

  lemma {:induction false} ReadsKeep(db: Db, ops: seq<Op>, now: nat)
    requires forall i | 0 <= i < |ops| :: Reads(ops[i])
    ensures Live(RunOps(db, ops, now).0, now) == Live(db, now)
  {
    if ops != [] {
      ReadsKeep(db, ops[..|ops| - 1], now);
      ReadKeeps(RunOps(db, ops[..|ops| - 1], now).0, ops[|ops| - 1], now);
    }
  }

  lemma {:induction false} MissedDeletesKeep(db: Db, ops: seq<Op>, now: nat)
    requires forall i | 0 <= i < |ops| :: ops[i].Delete?
    requires CountFlags(RunOps(db, ops, now).1) == 0
    ensures Live(RunOps(db, ops, now).0, now) == Live(db, now)
  {
    if ops != [] {
      var (before, got) := RunOps(db, ops[..|ops| - 1], now);
      var a := Apply(before, ops[|ops| - 1], now).1;
      assert (got + [a])[..|got + [a]| - 1] == got;
      MissedDeletesKeep(db, ops[..|ops| - 1], now);
      MissedDeleteKeeps(before, ops[|ops| - 1].key, now);
    }
  }

  // ---------- each command keeps the promise ----------

  /** Without the flag nothing visible changed; with it, the command is a known write. */
  ghost predicate Honest(db: Db, plan: Plan, now: nat, name: Bytes) {
    var (after, out) := Eval(db, plan, now);
    && (!out.persist ==> Live(after, now) == Live(db, now))
    && (out.persist ==> IsWriteCommand(name))
  }

  /** A call whose answer shows that it is flagged or changed nothing. */
  ghost predicate Settled(op: Op, a: Answer, persist: bool) {
    || persist || Reads(op) || a.Fail?
    || ((op.SetString? || op.Delete?) && a != Flag(true))
    || (op.Modify? && (op.edit.Pop? || op.edit.HDel? || op.edit.SAdd? || op.edit.SRem? || op.edit.ZRem?)
        && (a == Number(0) || a == Listing([])))
  }

  lemma SettledKeeps(db: Db, op: Op, now: nat)
    requires NoneEmpty(Live(db, now)) && Settled(op, Apply(db, op, now).1, false)
    ensures Live(Apply(db, op, now).0, now) == Live(db, now)
  {
    hide Live;
    var a := Apply(db, op, now).1;
    if Reads(op) {
      ReadKeeps(db, op, now);
    } else if a.Fail? {
      FailKeeps(db, op, now);
    } else if op.SetString? {
      RefusedSetKeeps(db, op.key, op.value, op.opts, now);
    } else if op.Delete? {
      MissedDeleteKeeps(db, op.key, now);
    } else {
      IdleEditKeeps(db, op.key, op.edit, now);
    }
  }

  /** The shape of nearly every command: reads, then a reply or one last settled call. */
  ghost predicate Shaped(db: Db, plan: Plan, now: nat, name: Bytes) {
    && (forall i | 0 <= i < |plan.ops| :: Reads(plan.ops[i]))
    && var (mid, got) := RunOps(db, plan.ops, now);
       match plan.next(got)
       case Stop(out) => !out.persist
       case Last(op, finish) =>
         var a := Apply(mid, op, now).1;
         Settled(op, a, finish(a).persist) && (finish(a).persist ==> IsWriteCommand(name))
  }

  lemma ShapedIsHonest(db: Db, plan: Plan, now: nat, name: Bytes)
    requires NoneEmpty(db) && Shaped(db, plan, now, name)
    ensures Honest(db, plan, now, name)
  {
    hide Live, Apply;
    ReadsKeep(db, plan.ops, now);
    var (mid, got) := RunOps(db, plan.ops, now);
    match plan.next(got)
    case Stop(out) =>
    case Last(op, finish) =>
      var a := Apply(mid, op, now).1;
      if !finish(a).persist {
        LiveNoneEmpty(db, now);
        SettledKeeps(mid, op, now);
      }
  }

  lemma LiveNoneEmpty(db: Db, now: nat)
    requires NoneEmpty(db)
    ensures NoneEmpty(Live(db, now))
  {
  }

  lemma EditResults(v: Value, e: Edit)
    requires KindOf(v) == KindOfEdit(e)
    ensures var r := Edited(v, e).1; if e.Pop? then r.Items? else r.Count? && r.n >= 0
  {
  }

  /** What an edit can answer. */
  lemma EditAnswers(db: Db, k: Bytes, e: Edit, now: nat)
    ensures var a := Apply(db, Modify(k, e), now).1;
            a.Fail? || (if e.Pop? then a.Listing? else a.Number? && a.n >= 0)
  {
    hide Edited, IsEmpty, Live;
    var cell := Cell(Live(db, now), k);
    var v := if cell.None? then Fresh(e) else cell.value.value;
    if KindOf(v) == KindOfEdit(e) {
      EditResults(v, e);
    }
  }

  lemma StringsShaped(db: Db, argv: Argv, now: nat)
    requires argv != [] && StringPlan(argv).Some? && !Named(Upper(argv[0]), "MSET")
    ensures Shaped(db, StringPlan(argv).value, now, Upper(argv[0]))
  {
    hide Named, Apply, Ascii, Upper, StoreErr, BulkReply, NumberReply;
  }

  lemma CountersShaped(db: Db, argv: Argv, now: nat)
    requires argv != [] && CounterPlan(argv).Some?
    ensures Shaped(db, CounterPlan(argv).value, now, Upper(argv[0]))
  {
    hide Named, Apply, ParseI64, Ascii, UpperAll, Upper, StoreErr, NumberReply;
  }

  lemma ListsShaped(db: Db, argv: Argv, now: nat)
    requires argv != [] && ListPlan(argv).Some?
    ensures Shaped(db, ListPlan(argv).value, now, Upper(argv[0]))
  {
    hide Named, Apply, ParseI64, Ascii, Upper, StoreErr, NumberReply, ListReply, ListingReply;
    if |argv| == 2 {
      EditAnswers(db, argv[1], Pop(1, true), now);
      EditAnswers(db, argv[1], Pop(1, false), now);
    } else if |argv| == 3 && ParseI64(argv[2]).Some? && ParseI64(argv[2]).value >= 0 {
      EditAnswers(db, argv[1], Pop(ParseI64(argv[2]).value, true), now);
      EditAnswers(db, argv[1], Pop(ParseI64(argv[2]).value, false), now);
    }
  }

  lemma HashesShaped(db: Db, argv: Argv, now: nat)
    requires argv != [] && HashPlan(argv).Some?
    ensures Shaped(db, HashPlan(argv).value, now, Upper(argv[0]))
  {
    hide Named, Apply, Ascii, Upper, StoreErr, BulkReply, NumberReply, Pairs;
    if |argv| >= 3 {
      EditAnswers(db, argv[1], HDel(argv[2..]), now);
    }
  }

  lemma SetsShaped(db: Db, argv: Argv, now: nat)
    requires argv != [] && SetPlan(argv).Some?
    ensures Shaped(db, SetPlan(argv).value, now, Upper(argv[0]))
  {
    hide Named, Apply, Ascii, Upper, StoreErr, NumberReply;
    if |argv| >= 3 {
      EditAnswers(db, argv[1], SAdd(argv[2..]), now);
      EditAnswers(db, argv[1], SRem(argv[2..]), now);
    }
  }

  lemma ZSetsShaped(db: Db, argv: Argv, now: nat, c: ScoreText)
    requires argv != [] && ZSetPlan(argv, c).Some?
    ensures Shaped(db, ZSetPlan(argv, c).value, now, Upper(argv[0]))
  {
    hide Named, Apply, ParseI64, Ascii, Upper, UpperAll, NumberReply, ScorePairs, RankReply, ScoreReply;
    if |argv| >= 3 {
      EditAnswers(db, argv[1], ZRem(argv[2..]), now);
    }
  }

  lemma KeysShaped(db: Db, argv: Argv, now: nat)
    requires argv != [] && KeyPlan(argv).Some?
    requires !((Named(Upper(argv[0]), "DEL") || Named(Upper(argv[0]), "UNLINK")) && |argv| >= 2)
    ensures Shaped(db, KeyPlan(argv).value, now, Upper(argv[0]))
  {
    hide Named, Apply, Ascii, Upper, CountFlags, KindName, TtlReply, Selected, ScanPattern;
  }

  lemma ServerShaped(db: Db, argv: Argv, now: nat)
    requires argv != [] && ServerPlan(argv).Some?
    ensures Shaped(db, ServerPlan(argv).value, now, Upper(argv[0]))
  {
    hide Named, Apply, Ascii, Upper;
  }

  lemma SetShaped(db: Db, argv: Argv, now: nat)
    requires argv != [] && IsWriteCommand(Upper(argv[0]))
    ensures Shaped(db, SetCommand(argv, now), now, Upper(argv[0]))
  {
    hide IsWriteCommand, Apply, Ascii, Upper, ScanSetOptions, StoreErr, BulkReply;
  }

  lemma SetExShaped(db: Db, argv: Argv, ms: bool, now: nat)
    requires argv != [] && IsWriteCommand(Upper(argv[0]))
    ensures Shaped(db, SetExCommand(argv, ms, now), now, Upper(argv[0]))
  {
    hide IsWriteCommand, Apply, ParseI64, Ascii, Upper, U64;
  }

  lemma ExpireShaped(db: Db, argv: Argv, unit: nat, absolute: bool, now: nat)
    requires argv != [] && IsWriteCommand(Upper(argv[0]))
    ensures Shaped(db, ExpireCommand(argv, unit, absolute, now), now, Upper(argv[0]))
  {
    hide IsWriteCommand, Apply, ParseI64, Ascii, Upper, ExpireApplies, U64;
  }

  lemma TimedShaped(db: Db, argv: Argv, now: nat)
    requires argv != [] && TimedPlan(argv, now).Some?
    ensures Shaped(db, TimedPlan(argv, now).value, now, Upper(argv[0]))
  {
    hide Named, Shaped, Upper, SetCommand, SetExCommand, ExpireCommand;
    var name := Upper(argv[0]);
    if Named(name, "SET") {
      SetShaped(db, argv, now);
    } else if Named(name, "SETEX") || Named(name, "PSETEX") {
      SetExShaped(db, argv, !Named(name, "SETEX"), now);
    } else {
      var unit := if Named(name, "EXPIRE") || (!Named(name, "PEXPIRE") && Named(name, "EXPIREAT")) then 1000 else 1;
      ExpireShaped(db, argv, unit, !Named(name, "EXPIRE") && !Named(name, "PEXPIRE"), now);
    }
  }

  lemma SetManyHonest(db: Db, args: seq<Bytes>, now: nat, name: Bytes)
    requires IsWriteCommand(name)
    ensures Honest(db, SetManyPlan(args), now, name)
  {
  }

  lemma DeletesHonest(db: Db, keys: seq<Bytes>, now: nat, name: Bytes)
    requires IsWriteCommand(name)
    ensures Honest(db, DeletePlan(keys), now, name)
  {
    hide Apply, Live, Named;
    var ops := DeletePlan(keys).ops;
    if CountFlags(RunOps(db, ops, now).1) == 0 {
      MissedDeletesKeep(db, ops, now);
    }
  }

  lemma UntimedHonest(db: Db, argv: Argv, now: nat, c: ScoreText)
    requires argv != [] && NoneEmpty(db) && UntimedPlan(argv, c).Some?
    ensures Honest(db, UntimedPlan(argv, c).value, now, Upper(argv[0]))
  {
    hide Honest, Named, Upper, ServerPlan, CounterPlan, ListPlan, HashPlan, SetPlan, ZSetPlan, DeletePlan, SetManyPlan;
    var name := Upper(argv[0]);
    var plan := UntimedPlan(argv, c).value;
    if ServerPlan(argv).Some? {
      ServerShaped(db, argv, now);
      ShapedIsHonest(db, plan, now, name);
    } else if StringPlan(argv).Some? {
      if Named(name, "MSET") {
        if |argv| < 3 || |argv| % 2 == 0 {
          ShapedIsHonest(db, plan, now, name);
        } else {
          SetManyHonest(db, argv[1..], now, name);
        }
      } else {
        StringsShaped(db, argv, now);
        ShapedIsHonest(db, plan, now, name);
      }
    } else if CounterPlan(argv).Some? {
      CountersShaped(db, argv, now);
      ShapedIsHonest(db, plan, now, name);
    } else if ListPlan(argv).Some? {
      ListsShaped(db, argv, now);
      ShapedIsHonest(db, plan, now, name);
    } else if HashPlan(argv).Some? {
      HashesShaped(db, argv, now);
      ShapedIsHonest(db, plan, now, name);
    } else if SetPlan(argv).Some? {
      SetsShaped(db, argv, now);
      ShapedIsHonest(db, plan, now, name);
    } else if ZSetPlan(argv, c).Some? {
      ZSetsShaped(db, argv, now, c);
      ShapedIsHonest(db, plan, now, name);
    } else if (Named(name, "DEL") || Named(name, "UNLINK")) && |argv| >= 2 {
      DeletesHonest(db, argv[1..], now, name);
    } else {
      KeysShaped(db, argv, now);
      ShapedIsHonest(db, plan, now, name);
    }
  }

  /**
   * The flag is exact. A command that is not flagged leaves everything visible as it was, and a
   * flagged one is among the commands a read-only replica refuses.
   */
  lemma FlagIsExact(db: Db, argv: Argv, now: nat, c: ScoreText)
    requires argv != [] && NoneEmpty(db)
    ensures var (after, out) := Execute(db, argv, now, c);
            && (!out.persist ==> Live(after, now) == Live(db, now))
            && (out.persist ==> IsWriteCommand(Upper(argv[0])))
  {
    hide Named, Upper, TimedPlan, UntimedPlan, Shaped, Ascii;
    var name := Upper(argv[0]);
    assert Honest(db, Dispatch(argv, now, c), now, name) by {
      if TimedPlan(argv, now).Some? {
        TimedShaped(db, argv, now);
        ShapedIsHonest(db, TimedPlan(argv, now).value, now, name);
      } else if UntimedPlan(argv, c).Some? {
        UntimedHonest(db, argv, now, c);
      } else {
        assert Dispatch(argv, now, c) == Unknown(argv);
      }
    }
  }

  // ---------- replaying the log ----------

  datatype Timed = Timed(argv: Argv, now: nat)

  predicate Runnable(hist: seq<Timed>) {
    forall i | 0 <= i < |hist| :: hist[i].argv != []
  }

  /** Commands ran at times that never go back. */
  predicate InOrder(hist: seq<Timed>) {
    forall i, j | 0 <= i < j < |hist| :: hist[i].now <= hist[j].now
  }

  function ExecuteAll(db: Db, hist: seq<Timed>, c: ScoreText): Db
    requires Runnable(hist)
  {
    if hist == [] then db
    else
      var h := hist[|hist| - 1];
      Execute(ExecuteAll(db, hist[..|hist| - 1], c), h.argv, h.now, c).0
  }

  predicate IsLogged(db: Db, h: Timed, c: ScoreText)
    requires h.argv != []
  {
    Execute(db, h.argv, h.now, c).1.persist
  }

  /** What the log holds after a history: the commands that were flagged when they ran. */
  function Logged(db: Db, hist: seq<Timed>, c: ScoreText): (log: seq<Timed>)
    requires Runnable(hist)
    ensures Runnable(log)
  {
    if hist == [] then []
    else
      var init, h := hist[..|hist| - 1], hist[|hist| - 1];
      if IsLogged(ExecuteAll(db, init, c), h, c) then Logged(db, init, c) + [h] else Logged(db, init, c)
  }

  /** A command sees only what is visible. */
  lemma {:induction false} RunOpsSeesLive(a: Db, b: Db, ops: seq<Op>, now: nat)
    requires Live(a, now) == Live(b, now)
    ensures RunOps(a, ops, now).1 == RunOps(b, ops, now).1
    ensures Live(RunOps(a, ops, now).0, now) == Live(RunOps(b, ops, now).0, now)
  {
    hide Live, Apply;
    if ops != [] {
      var init := ops[..|ops| - 1];
      RunOpsSeesLive(a, b, init, now);
      ApplySeesLive(RunOps(a, init, now).0, RunOps(b, init, now).0, ops[|ops| - 1], now, now);
    }
  }

  lemma EvalSeesLive(a: Db, b: Db, plan: Plan, now: nat)
    requires Live(a, now) == Live(b, now)
    ensures Eval(a, plan, now).1 == Eval(b, plan, now).1
    ensures Live(Eval(a, plan, now).0, now) == Live(Eval(b, plan, now).0, now)
  {
    hide Live, Apply, RunOps;
    RunOpsSeesLive(a, b, plan.ops, now);
    var t := plan.next(RunOps(a, plan.ops, now).1);
    if t.Last? {
      ApplySeesLive(RunOps(a, plan.ops, now).0, RunOps(b, plan.ops, now).0, t.op, now, now);
    }
  }

  lemma {:induction false} RunOpsKeepsNoneEmpty(db: Db, ops: seq<Op>, now: nat)
    requires NoneEmpty(db)
    ensures NoneEmpty(RunOps(db, ops, now).0)
  {
    hide Apply;
    if ops != [] {
      RunOpsKeepsNoneEmpty(db, ops[..|ops| - 1], now);
      ApplyKeepsNoneEmpty(RunOps(db, ops[..|ops| - 1], now).0, ops[|ops| - 1], now);
    }
  }

  lemma EvalKeepsNoneEmpty(db: Db, plan: Plan, now: nat)
    requires NoneEmpty(db)
    ensures NoneEmpty(Eval(db, plan, now).0)
  {
    hide Apply, RunOps;
    RunOpsKeepsNoneEmpty(db, plan.ops, now);
    var t := plan.next(RunOps(db, plan.ops, now).1);
    if t.Last? {
      ApplyKeepsNoneEmpty(RunOps(db, plan.ops, now).0, t.op, now);
    }
  }

  lemma {:induction false} ExecuteAllKeepsNoneEmpty(db: Db, hist: seq<Timed>, c: ScoreText)
    requires NoneEmpty(db) && Runnable(hist)
    ensures NoneEmpty(ExecuteAll(db, hist, c))
  {
    hide Eval, Dispatch;
    if hist != [] {
      var h := hist[|hist| - 1];
      ExecuteAllKeepsNoneEmpty(db, hist[..|hist| - 1], c);
      EvalKeepsNoneEmpty(ExecuteAll(db, hist[..|hist| - 1], c), Dispatch(h.argv, h.now, c), h.now);
    }
  }

  /**
   * Log completeness. Replaying only the logged commands, each at the time it first ran, rebuilds
   * everything that is visible once the history has run, expiries included.
   */
  lemma {:induction false} LogRebuilds(db: Db, hist: seq<Timed>, c: ScoreText, now: nat)
    requires NoneEmpty(db) && Runnable(hist) && InOrder(hist)
    requires hist != [] ==> hist[|hist| - 1].now <= now
    ensures Live(ExecuteAll(db, Logged(db, hist, c), c), now) == Live(ExecuteAll(db, hist, c), now)
  {
    hide Eval, Dispatch, Live;
    if hist != [] {
      var init, h := hist[..|hist| - 1], hist[|hist| - 1];
      var full, log := ExecuteAll(db, init, c), Logged(db, init, c);
      var part := ExecuteAll(db, log, c);
      LogRebuilds(db, init, c, h.now);
      ExecuteAllKeepsNoneEmpty(db, init, c);
      FlagIsExact(full, h.argv, h.now, c);
      if IsLogged(full, h, c) {
        EvalSeesLive(part, full, Dispatch(h.argv, h.now, c), h.now);
        assert (log + [h])[..|log|] == log;
        LiveLater(Execute(part, h.argv, h.now, c).0, h.now, now);
        LiveLater(Execute(full, h.argv, h.now, c).0, h.now, now);
      } else {
        LiveLater(part, h.now, now);
        LiveLater(full, h.now, now);
        LiveLater(Execute(full, h.argv, h.now, c).0, h.now, now);
      }
    }
  }
}
