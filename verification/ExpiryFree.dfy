/** Histories that set no expiry: what they build does not depend on when they run. */
module ExpiryFree {
  import opened Basics
  import opened Decimal
  import opened Resp
  import opened Values
  import opened Keyspace
  import opened Replies
  import opened Commands
  import opened CommandLog

  /** No key has an expiry. */
  predicate Permanent(db: Db) {
    forall k | k in db :: db[k].expireAt.None?
  }

  /** A command that names no time. */
  predicate Timeless(argv: Argv) {
    argv != [] &&
    var name := Upper(argv[0]);
    && !Named(name, "SETEX") && !Named(name, "PSETEX")
    && !Named(name, "EXPIRE") && !Named(name, "PEXPIRE") && !Named(name, "EXPIREAT") && !Named(name, "PEXPIREAT")
    && (Named(name, "SET") ==> forall i | 3 <= i < |argv| :: !IsExpiryOption(UpperAll(argv[i])))
  }

  predicate OpTimeless(op: Op) {
    && (op.SetString? ==> op.opts.expireAt.None?)
    && (op.ExpireAt? ==> op.at.None?)
  }

  lemma {:induction false} ScanIsTimeless(argv: Argv, i: nat, s: SetArgs, now: nat, later: nat)
    requires forall j | i <= j < |argv| :: !IsExpiryOption(UpperAll(argv[j]))
    ensures ScanSetOptions(argv, i, s, now) == ScanSetOptions(argv, i, s, later)
    ensures var r := ScanSetOptions(argv, i, s, now); r.Ok? ==> r.value.opts.expireAt == s.opts.expireAt
    decreases |argv| - i
  {
    hide Ascii, UpperAll, IsExpiryOption;
    if i < |argv| {
      var opt := UpperAll(argv[i]);
      var t :=
        if opt == Ascii("NX") then s.(opts := s.opts.(nx := true))
        else if opt == Ascii("XX") then s.(opts := s.opts.(xx := true))
        else if opt == Ascii("KEEPTTL") then s.(opts := s.opts.(keepTtl := true))
        else s.(wantGet := true);
      ScanIsTimeless(argv, i + 1, t, now, later);
    }
  }

  lemma DispatchIsTimeless(argv: Argv, now: nat, later: nat, c: ScoreText)
    requires Timeless(argv)
    ensures Dispatch(argv, now, c) == Dispatch(argv, later, c)
  {
    hide Named, Upper, UntimedPlan, UpperAll, IsExpiryOption, SetExCommand, ExpireCommand, Unknown;
    if Named(Upper(argv[0]), "SET") {
      ScanIsTimeless(argv, 3, SetArgs(PLAIN, false), now, later);
    }
  }

  /** What a plan asks of the store sets no expiry. */
  ghost predicate PlanTimeless(plan: Plan, got: seq<Answer>) {
    && (forall i | 0 <= i < |plan.ops| :: OpTimeless(plan.ops[i]))
    && (plan.next(got).Last? ==> OpTimeless(plan.next(got).op))
  }

  lemma {:induction false} SetEachTimeless(args: seq<Bytes>)
    ensures forall i | 0 <= i < |SetEach(args)| :: OpTimeless(SetEach(args)[i])
  {
    if |args| >= 2 {
      SetEachTimeless(args[2..]);
    }
  }

  lemma StringsTimeless(argv: Argv, got: seq<Answer>)
    requires argv != [] && StringPlan(argv).Some?
    ensures PlanTimeless(StringPlan(argv).value, got)
  {
    hide Named, Upper, Ascii, SetEach, StoreErr, BulkReply, NumberReply;
    SetEachTimeless(argv[1..]);
  }

  lemma CountersTimeless(argv: Argv, got: seq<Answer>)
    requires argv != [] && CounterPlan(argv).Some?
    ensures PlanTimeless(CounterPlan(argv).value, got)
  {
    hide Named, Upper, UpperAll, Ascii, ParseI64, NumberReply;
  }

  lemma ListsTimeless(argv: Argv, got: seq<Answer>)
    requires argv != [] && ListPlan(argv).Some?
    ensures PlanTimeless(ListPlan(argv).value, got)
  {
    hide Named, Upper, Ascii, ParseI64, NumberReply, ListReply, ListingReply, StoreErr;
  }

  lemma HashesTimeless(argv: Argv, got: seq<Answer>)
    requires argv != [] && HashPlan(argv).Some?
    ensures PlanTimeless(HashPlan(argv).value, got)
  {
    hide Named, Upper, Ascii, Pairs, NumberReply, BulkReply, StoreErr;
  }

  lemma SetsTimeless(argv: Argv, got: seq<Answer>)
    requires argv != [] && SetPlan(argv).Some?
    ensures PlanTimeless(SetPlan(argv).value, got)
  {
    hide Named, Upper, Ascii, NumberReply, StoreErr;
  }

  lemma ZSetsTimeless(argv: Argv, got: seq<Answer>, c: ScoreText)
    requires argv != [] && ZSetPlan(argv, c).Some?
    ensures PlanTimeless(ZSetPlan(argv, c).value, got)
  {
    hide Named, Upper, UpperAll, Ascii, ParseI64, ScorePairs, RankReply, ScoreReply, NumberReply;
  }

  lemma KeysTimeless(argv: Argv, got: seq<Answer>)
    requires argv != []
    ensures KeyPlan(argv).Some? ==> PlanTimeless(KeyPlan(argv).value, got)
    ensures ServerPlan(argv).Some? ==> PlanTimeless(ServerPlan(argv).value, got)
  {
    hide Named, Upper, Ascii;
  }

  lemma SetTimeless(argv: Argv, now: nat, got: seq<Answer>)
    requires argv != [] && forall i | 3 <= i < |argv| :: !IsExpiryOption(UpperAll(argv[i]))
    ensures PlanTimeless(SetCommand(argv, now), got)
  {
    hide UpperAll, IsExpiryOption, ScanSetOptions, Ascii, StoreErr;
    ScanIsTimeless(argv, 3, SetArgs(PLAIN, false), now, now);
  }

  lemma UntimedTimeless(argv: Argv, got: seq<Answer>, c: ScoreText)
    requires argv != []
    ensures UntimedPlan(argv, c).Some? ==> PlanTimeless(UntimedPlan(argv, c).value, got)
  {
    hide PlanTimeless, ServerPlan, StringPlan, CounterPlan, ListPlan, HashPlan, SetPlan, ZSetPlan, KeyPlan;
    KeysTimeless(argv, got);
    if ServerPlan(argv).Some? {
    } else if StringPlan(argv).Some? {
      StringsTimeless(argv, got);
    } else if CounterPlan(argv).Some? {
      CountersTimeless(argv, got);
    } else if ListPlan(argv).Some? {
      ListsTimeless(argv, got);
    } else if HashPlan(argv).Some? {
      HashesTimeless(argv, got);
    } else if SetPlan(argv).Some? {
      SetsTimeless(argv, got);
    } else if ZSetPlan(argv, c).Some? {
      ZSetsTimeless(argv, got, c);
    }
  }

  lemma TimelessPlan(argv: Argv, now: nat, got: seq<Answer>, c: ScoreText)
    requires Timeless(argv)
    ensures PlanTimeless(Dispatch(argv, now, c), got)
  {
    hide Named, Upper, UpperAll, IsExpiryOption, SetCommand, SetExCommand, ExpireCommand, PlanTimeless,
         UntimedPlan, Unknown;
    if Named(Upper(argv[0]), "SET") {
      SetTimeless(argv, now, got);
    } else {
      UntimedTimeless(argv, got, c);
      UnknownTimeless(argv, got);
    }
  }

  lemma UnknownTimeless(argv: Argv, got: seq<Answer>)
    requires argv != []
    ensures PlanTimeless(Unknown(argv), got)
  {
  }

  // ---------- running them ----------

  lemma LiveIsAll(db: Db, now: nat)
    requires Permanent(db)
    ensures Live(db, now) == db
  {
    assert Live(db, now).Keys == db.Keys;
  }

  /** Without expiries a call does the same at any time, and sets none. */
  lemma ApplyIsTimeless(db: Db, op: Op, now: nat, later: nat)
    requires Permanent(db) && OpTimeless(op)
    ensures Apply(db, op, now) == Apply(db, op, later) && Permanent(Apply(db, op, now).0)
  {
    hide Live, Edited, IsEmpty, ReadValue;
    LiveIsAll(db, now);
    LiveIsAll(db, later);
  }

  lemma {:induction false} RunOpsIsTimeless(db: Db, ops: seq<Op>, now: nat, later: nat)
    requires Permanent(db) && forall i | 0 <= i < |ops| :: OpTimeless(ops[i])
    ensures RunOps(db, ops, now) == RunOps(db, ops, later) && Permanent(RunOps(db, ops, now).0)
  {
    hide Apply, OpTimeless, Permanent;
    if ops != [] {
      RunOpsIsTimeless(db, ops[..|ops| - 1], now, later);
      ApplyIsTimeless(RunOps(db, ops[..|ops| - 1], now).0, ops[|ops| - 1], now, later);
    }
  }

  lemma ExecuteIsTimeless(db: Db, argv: Argv, now: nat, later: nat, c: ScoreText)
    requires Permanent(db) && Timeless(argv)
    ensures Execute(db, argv, now, c) == Execute(db, argv, later, c) && Permanent(Execute(db, argv, now, c).0)
  {
    hide Apply, OpTimeless, Permanent, Dispatch, RunOps, Named, IsExpiryOption;
    DispatchIsTimeless(argv, now, later, c);
    var plan := Dispatch(argv, now, c);
    var (mid, got) := RunOps(db, plan.ops, now);
    TimelessPlan(argv, now, got, c);
    RunOpsIsTimeless(db, plan.ops, now, later);
    if plan.next(got).Last? {
      ApplyIsTimeless(mid, plan.next(got).op, now, later);
    }
  }

  /** The same commands at any times build the same keyspace. */
  lemma {:induction false} ExecuteAllIsTimeless(db: Db, a: seq<Timed>, b: seq<Timed>, c: ScoreText)
    requires Permanent(db) && |a| == |b|
    requires forall i | 0 <= i < |a| :: Timeless(a[i].argv) && a[i].argv == b[i].argv
    ensures Runnable(a) && Runnable(b)
    ensures ExecuteAll(db, a, c) == ExecuteAll(db, b, c) && Permanent(ExecuteAll(db, a, c))
  {
    hide Execute, Permanent, Named, IsExpiryOption;
    if a != [] {
      var n := |a| - 1;
      ExecuteAllIsTimeless(db, a[..n], b[..n], c);
      ExecuteIsTimeless(ExecuteAll(db, a[..n], c), a[n].argv, a[n].now, b[n].now, c);
    }
  }

  /** Which commands are logged does not depend on the clock either. */
  lemma {:induction false} LoggedIsTimeless(db: Db, a: seq<Timed>, b: seq<Timed>, c: ScoreText)
    requires Permanent(db) && |a| == |b|
    requires forall i | 0 <= i < |a| :: Timeless(a[i].argv) && a[i].argv == b[i].argv
    ensures Runnable(a) && Runnable(b) && CommandsOf(Logged(db, a, c)) == CommandsOf(Logged(db, b, c))
  {
    hide Execute, Permanent, Named, IsExpiryOption;
    if a != [] {
      var n := |a| - 1;
      LoggedIsTimeless(db, a[..n], b[..n], c);
      ExecuteAllIsTimeless(db, a[..n], b[..n], c);
      ExecuteIsTimeless(ExecuteAll(db, a[..n], c), a[n].argv, a[n].now, b[n].now, c);
      CommandsSnoc(Logged(db, a[..n], c), a[n]);
      CommandsSnoc(Logged(db, b[..n], c), b[n]);
    }
  }

  /** The commands of a history, without the times. */
  function CommandsOf(hist: seq<Timed>): (cmds: seq<Argv>)
    ensures |cmds| == |hist| && forall i | 0 <= i < |hist| :: cmds[i] == hist[i].argv
  {
    seq(|hist|, i requires 0 <= i < |hist| => hist[i].argv)
  }

  lemma CommandsSnoc(hist: seq<Timed>, h: Timed)
    ensures CommandsOf(hist + [h]) == CommandsOf(hist) + [h.argv]
  {
  }

  function AtZero(cmds: seq<Argv>): (h: seq<Timed>)
    ensures |h| == |cmds| && forall i | 0 <= i < |cmds| :: h[i] == Timed(cmds[i], 0)
  {
    seq(|cmds|, i requires 0 <= i < |cmds| => Timed(cmds[i], 0))
  }

  /**
   * The log of an expiry-free history rebuilds the same keyspace whenever it is replayed.
   * `replay` is the log with whatever clock readings the replay happens to see.
   */
  lemma {:induction false} LogRebuildsAnytime(db: Db, hist: seq<Timed>, replay: seq<Timed>, c: ScoreText)
    requires NoneEmpty(db) && Permanent(db)
    requires forall i | 0 <= i < |hist| :: Timeless(hist[i].argv)
    requires Runnable(hist) && CommandsOf(replay) == CommandsOf(Logged(db, hist, c))
    ensures Runnable(replay) && ExecuteAll(db, replay, c) == ExecuteAll(db, hist, c)
  {
    hide Execute, Named, IsExpiryOption, Live, Dispatch;
    var zero := AtZero(CommandsOf(hist));
    var log := Logged(db, zero, c);
    LoggedIsTimeless(db, hist, zero, c);
    LoggedAreTimeless(db, zero, c);
    forall i | 0 <= i < |log| ensures log[i].argv == replay[i].argv {
      assert CommandsOf(replay)[i] == CommandsOf(log)[i];
    }
    ExecuteAllIsTimeless(db, log, replay, c);
    ExecuteAllIsTimeless(db, hist, zero, c);
    LogRebuilds(db, zero, c, 0);
    LiveIsAll(ExecuteAll(db, log, c), 0);
    LiveIsAll(ExecuteAll(db, zero, c), 0);
  }

  lemma {:induction false} LoggedAreTimeless(db: Db, hist: seq<Timed>, c: ScoreText)
    requires Runnable(hist) && forall i | 0 <= i < |hist| :: Timeless(hist[i].argv)
    ensures forall i | 0 <= i < |Logged(db, hist, c)| :: Timeless(Logged(db, hist, c)[i].argv)
  {
    hide Execute, Timeless;
    if hist != [] {
      LoggedAreTimeless(db, hist[..|hist| - 1], c);
    }
  }
}
