/** Running commands on the store, and the hand-written path for the hottest of them. */
module FastPath {
  import opened Basics
  import opened Decimal
  import opened Resp
  import opened Keyspace
  import opened Replies
  import opened Commands
  import opened Shards
  import opened Stores
  import opened Sums

  // ---------- dispatch on the store ----------

  /** Calls one after the other on a store with or without a memory limit. */
  ghost function OpsOn(ims: seq<Image>, cfg: Setup, ops: seq<Op>, now: nat): (r: (seq<Image>, seq<Answer>))
    requires |ims| > 0
    ensures |r.0| == |ims|
  {
    if ops == [] then (ims, [])
    else
      var (mid, got) := OpsOn(ims, cfg, ops[..|ops| - 1], now);
      var (end, a) := StoreStep(mid, cfg, ops[|ops| - 1], now);
      (end, got + [a])
  }

  ghost function PlanOn(ims: seq<Image>, cfg: Setup, plan: Plan, now: nat): (r: (seq<Image>, Outcome))
    requires |ims| > 0
    ensures |r.0| == |ims|
  {
    var (mid, got) := OpsOn(ims, cfg, plan.ops, now);
    match plan.next(got)
    case Stop(o) => (mid, o)
    case Last(op, finish) =>
      var (end, a) := StoreStep(mid, cfg, op, now);
      (end, finish(a))
  }

  /** `dispatch`: the whole next state of the store and the outcome. */
  ghost function ExecuteOn(ims: seq<Image>, cfg: Setup, argv: Argv, now: nat, c: ScoreText): (r: (seq<Image>, Outcome))
    requires |ims| > 0 && argv != []
    ensures |r.0| == |ims|
  {
    PlanOn(ims, cfg, Dispatch(argv, now, c), now)
  }

  /** Runs the calls of a command one after the other on the sharded store. */
  method RunPlan(st: Store, plan: Plan, now: nat) returns (out: Outcome)
    requires st.Valid()
    modifies st, st.shards, set s | s in st.shards :: s.pol
    ensures st.Valid()
    ensures st.shards == old(st.shards) || (fresh(st.shards) && forall s | s in st.shards :: fresh(s.pol))
    ensures |st.shards| == |old(st.shards)| > 0 && (st.Images(), out) == PlanOn(old(st.Images()), st.Cfg(), plan, now)
    ensures st.maxmemory == 0 ==>
              && out == Eval(old(st.Contents()), plan, now).1
              && Live(st.Contents(), now) == Live(Eval(old(st.Contents()), plan, now).0, now)
  {
    hide Store.Valid, Store.Contents, Store.Images, Apply, Live, Shard.Valid, StoreStep, SubBindings;
    st.ContentsOfImages();
    ghost var db, ims, cfg := st.Contents(), st.Images(), st.Cfg();
    var got: seq<Answer> := [];
    for i := 0 to |plan.ops|
      invariant st.Valid() && |st.shards| == |old(st.shards)| && st.Cfg() == cfg
      invariant st.shards == old(st.shards) || (fresh(st.shards) && forall s | s in st.shards :: fresh(s.pol))
      invariant (st.Images(), got) == OpsOn(ims, cfg, plan.ops[..i], now)
      invariant st.maxmemory == 0 ==>
                  && got == RunOps(db, plan.ops[..i], now).1
                  && Live(st.Contents(), now) == Live(RunOps(db, plan.ops[..i], now).0, now)
    {
      assert plan.ops[..i + 1][..i] == plan.ops[..i];
      if st.maxmemory == 0 {
        ApplySeesLive(st.Contents(), RunOps(db, plan.ops[..i], now).0, plan.ops[i], now, now);
      }
      var a := st.Call(plan.ops[i], now);
      got := got + [a];
    }
    assert plan.ops[..|plan.ops|] == plan.ops;
    match plan.next(got) {
      case Stop(o) => out := o;
      case Last(op, finish) =>
        if st.maxmemory == 0 {
          ApplySeesLive(st.Contents(), RunOps(db, plan.ops, now).0, op, now, now);
        }
        var a := st.Call(op, now);
        out := finish(a);
    }
  }

  // ---------- which plan a fast name gets ----------

  /** A name that none of the timed commands has. */
  lemma NotTimed(text: string)
    requires text == "GET" || text == "PING" || text == "INCR" || text == "DECR"
    ensures var b := Ascii(text);
            && b != Ascii("SET") && b != Ascii("SETEX") && b != Ascii("PSETEX") && b != Ascii("EXPIRE")
            && b != Ascii("PEXPIRE") && b != Ascii("EXPIREAT") && b != Ascii("PEXPIREAT")
  {
    hide Ascii;
    if text == "GET" {
      AsciiDiffer("GET", "SET", 0);
    }
  }

  lemma NotServer(text: string)
    requires text == "GET" || text == "INCR" || text == "DECR"
    ensures var b := Ascii(text);
            && b != Ascii("PING") && b != Ascii("ECHO") && b != Ascii("QUIT") && b != Ascii("SELECT")
            && b != Ascii("FLUSHALL") && b != Ascii("FLUSHDB") && b != Ascii("HELLO") && b != Ascii("AUTH")
            && b != Ascii("COMMAND") && b != Ascii("CONFIG") && b != Ascii("CLIENT") && b != Ascii("INFO")
            && b != Ascii("DBSIZE") && b != Ascii("SAVE") && b != Ascii("BGSAVE")
  {
    hide Ascii;
    if text != "GET" {
      AsciiDiffer(text, "PING", 0);
      AsciiDiffer(text, "ECHO", 0);
      AsciiDiffer(text, "QUIT", 0);
      AsciiDiffer(text, "AUTH", 0);
      AsciiDiffer(text, "INFO", 2);
      AsciiDiffer(text, "SAVE", 0);
    }
  }

  lemma NotString(text: string)
    requires text == "INCR" || text == "DECR"
    ensures var b := Ascii(text);
            && b != Ascii("MSET") && b != Ascii("GET") && b != Ascii("GETSET") && b != Ascii("SETNX")
            && b != Ascii("MGET") && b != Ascii("APPEND") && b != Ascii("STRLEN")
  {
    hide Ascii;
    AsciiDiffer(text, "MSET", 0);
    AsciiDiffer(text, "MGET", 0);
  }

  /** The single store call that a fast command makes. */
  function FastCall(argv: Argv): Option<Op>
    requires argv != []
  {
    var name, n := Upper(argv[0]), |argv|;
    if Named(name, "GET") && n == 2 then Some(Read(argv[1], GetString))
    else if Named(name, "SET") && n == 3 then Some(SetString(argv[1], argv[2], PLAIN))
    else if Named(name, "INCR") && n == 2 then Some(IncrBy(argv[1], 1))
    else if Named(name, "DECR") && n == 2 then Some(IncrBy(argv[1], -1))
    else None
  }

  function FastOutcome(argv: Argv, a: Answer): Outcome
    requires argv != []
  {
    var name := Upper(argv[0]);
    if Named(name, "GET") then R(BulkReply(a))
    else if Named(name, "SET") then Maybe(if a == Flag(true) then OK else Bulk(None), a == Flag(true))
    else IfDone(a, NumberReply(a))
  }

  ghost predicate SameCall(argv: Argv, plan: Plan, a: Answer)
    requires argv != [] && FastCall(argv).Some?
  {
    && plan.ops == []
    && plan.next([]).Last? && plan.next([]).op == FastCall(argv).value
    && plan.next([]).finish(a) == FastOutcome(argv, a)
  }

  lemma DispatchOfGet(argv: Argv, now: nat, c: ScoreText, a: Answer)
    requires |argv| == 2 && Named(Upper(argv[0]), "GET")
    ensures SameCall(argv, Dispatch(argv, now, c), a)
  {
    hide Ascii, Upper, BulkReply, CounterPlan, ListPlan, HashPlan, SetPlan, ZSetPlan, KeyPlan;
    NotTimed("GET");
    NotServer("GET");
  }

  lemma DispatchOfSet(argv: Argv, now: nat, c: ScoreText, a: Answer)
    requires |argv| == 3 && Named(Upper(argv[0]), "SET")
    ensures SameCall(argv, Dispatch(argv, now, c), a)
  {
    hide Ascii, Upper, UntimedPlan, SetExCommand, ExpireCommand;
    AsciiDiffer("GET", "SET", 0);
  }

  lemma CountersComeThird(argv: Argv, now: nat, text: string)
    requires argv != [] && (text == "INCR" || text == "DECR") && Named(Upper(argv[0]), text)
    ensures TimedPlan(argv, now).None? && ServerPlan(argv).None? && StringPlan(argv).None?
  {
    hide Ascii, Upper;
    NotTimed(text);
    NotServer(text);
    NotString(text);
  }

  lemma DispatchOfIncr(argv: Argv, now: nat, c: ScoreText, a: Answer)
    requires |argv| == 2 && (Named(Upper(argv[0]), "INCR") || Named(Upper(argv[0]), "DECR"))
    ensures SameCall(argv, Dispatch(argv, now, c), a)
  {
    hide Ascii, Upper, TimedPlan, ServerPlan, StringPlan, NumberReply, ListPlan, HashPlan, SetPlan, ZSetPlan, KeyPlan;
    var text := if Named(Upper(argv[0]), "INCR") then "INCR" else "DECR";
    CountersComeThird(argv, now, text);
    NotTimed(text);
    NotString(text);
    AsciiDiffer("INCR", "DECR", 0);
  }

  /** The general dispatcher makes the same single call and builds its reply from the same answer. */
  lemma DispatchOfFast(argv: Argv, now: nat, c: ScoreText, a: Answer)
    requires argv != [] && FastCall(argv).Some?
    ensures SameCall(argv, Dispatch(argv, now, c), a)
  {
    hide Ascii, Upper, Dispatch, SameCall;
    if Named(Upper(argv[0]), "GET") && |argv| == 2 {
      DispatchOfGet(argv, now, c, a);
    } else if Named(Upper(argv[0]), "SET") && |argv| == 3 {
      DispatchOfSet(argv, now, c, a);
    } else {
      DispatchOfIncr(argv, now, c, a);
    }
  }

  /** A fast command on the reference keyspace. */
  lemma ExecuteOfFast(db: Db, argv: Argv, now: nat, c: ScoreText)
    requires argv != [] && FastCall(argv).Some?
    ensures var (after, a) := Apply(db, FastCall(argv).value, now);
            Execute(db, argv, now, c) == (after, FastOutcome(argv, a))
  {
    hide Dispatch, Apply, FastOutcome, FastCall;
    DispatchOfFast(argv, now, c, Apply(db, FastCall(argv).value, now).1);
  }

  /** A fast command on a store, whatever its limit. */
  lemma ExecuteOnFast(ims: seq<Image>, cfg: Setup, argv: Argv, now: nat, c: ScoreText)
    requires |ims| > 0 && argv != [] && FastCall(argv).Some?
    ensures var (after, a) := StoreStep(ims, cfg, FastCall(argv).value, now);
            ExecuteOn(ims, cfg, argv, now, c) == (after, FastOutcome(argv, a))
  {
    hide Dispatch, StoreStep, FastOutcome, FastCall;
    DispatchOfFast(argv, now, c, StoreStep(ims, cfg, FastCall(argv).value, now).1);
  }

  lemma ExecuteOnPing(ims: seq<Image>, cfg: Setup, argv: Argv, now: nat, c: ScoreText)
    requires |ims| > 0 && |argv| == 1 && Named(Upper(argv[0]), "PING")
    ensures ExecuteOn(ims, cfg, argv, now, c) == (ims, R(Simple(Ascii("PONG"))))
  {
    hide Ascii, Upper, StringPlan, CounterPlan, ListPlan, HashPlan, SetPlan, ZSetPlan, KeyPlan, StoreStep;
    NotTimed("PING");
  }

  lemma ExecuteOfPing(db: Db, argv: Argv, now: nat, c: ScoreText)
    requires |argv| == 1 && Named(Upper(argv[0]), "PING")
    ensures Execute(db, argv, now, c) == (db, R(Simple(Ascii("PONG"))))
  {
    hide Ascii, Upper, StringPlan, CounterPlan, ListPlan, HashPlan, SetPlan, ZSetPlan, KeyPlan, Apply;
    NotTimed("PING");
  }

  // ---------- the fast path ----------

  /** Stored strings have machine-sized lengths. */
  ghost predicate Addressable(db: Db) {
    forall k | k in db && db[k].value.Str? :: |db[k].value.s| < U64_LIMIT
  }

  /**
   * `serve_fast` handled the command as `dispatch` and `encode` would have: the same bytes, the same
   * flag and, whatever the memory limit, the same next state of every shard and its eviction policy.
   */
  ghost predicate ServedAs(ims: seq<Image>, after: seq<Image>, cfg: Setup, argv: Argv, now: nat, c: ScoreText,
                           resp3: bool, sofar: Bytes, out: Bytes, isWrite: bool)
    requires |ims| > 0 && argv != []
  {
    var (next, o) := ExecuteOn(ims, cfg, argv, now, c);
    && after == next
    && HasWireForm(o.reply) && out == sofar + Encoded(o.reply, resp3)
    && isWrite == o.persist && !o.quit
  }

  method WriteText(sofar: Bytes, a: Answer, resp3: bool) returns (out: Bytes)
    requires (a.Text? && (a.text.Some? ==> |a.text.value| < U64_LIMIT)) || a == Fail(WrongType)
    ensures HasWireForm(BulkReply(a)) && out == sofar + Encoded(BulkReply(a), resp3)
  {
    match a {
      case Text(Some(b)) => out := WriteBulk(sofar, b, resp3);
      case Text(None) => out := WriteNull(sofar, resp3);
      case _ => out := WriteError(sofar, WRONGTYPE, resp3);
    }
  }

  /** Writes what INCR or DECR answered; true if it was a write. */
  method WriteCounter(sofar: Bytes, a: Answer, resp3: bool) returns (isWrite: bool, out: Bytes)
    requires (a.Number? && IsI64(a.n)) || a.Fail?
    ensures var o := IfDone(a, NumberReply(a));
            HasWireForm(o.reply) && out == sofar + Encoded(o.reply, resp3) && isWrite == o.persist
  {
    match a {
      case Number(v) =>
        out := WriteInt(sofar, v, resp3);
        isWrite := true;
      case Fail(e) =>
        if e == WrongType {
          out := WriteError(sofar, Message(e), resp3);
        } else {
          out := WriteError(sofar, Ascii("ERR ") + Message(e), resp3);
        }
        isWrite := false;
    }
  }

  lemma TextOfGet(db: Db, k: Bytes, now: nat)
    requires Addressable(Live(db, now))
    ensures var a := Apply(db, Read(k, GetString), now).1;
            (a.Text? && (a.text.Some? ==> |a.text.value| < U64_LIMIT)) || a == Fail(WrongType)
  {
  }

  lemma AnswerOfIncr(db: Db, k: Bytes, delta: int, now: nat)
    ensures var a := Apply(db, IncrBy(k, delta), now).1; (a.Number? && IsI64(a.n)) || a.Fail?
  {
    hide Live, ParseCounter;
  }

  /** GET, encoded straight from the stored value. */
  method FastGet(st: Store, argv: Argv, sofar: Bytes, resp3: bool, now: nat, ghost c: ScoreText)
    returns (isWrite: bool, out: Bytes)
    requires st.Valid() && Addressable(Live(st.Contents(), now))
    requires |argv| == 2 && Named(Upper(argv[0]), "GET")
    modifies st, st.shards, set s | s in st.shards :: s.pol
    ensures st.Valid()
    ensures st.shards == old(st.shards) || (fresh(st.shards) && forall s | s in st.shards :: fresh(s.pol))
    ensures |st.shards| == |old(st.shards)| > 0
    ensures ServedAs(old(st.Images()), st.Images(), st.Cfg(), argv, now, c, resp3, sofar, out, isWrite)
    ensures st.maxmemory == 0 ==> Live(st.Contents(), now) == Live(Execute(old(st.Contents()), argv, now, c).0, now)
  {
    hide Store.Valid, Store.Contents, Store.Images, Apply, Live, Shard.Valid, Upper, Ascii, Execute, ExecuteOn, StoreStep,
         Encoded, Addressable, SubBindings;
    ghost var db := st.Contents();
    st.ContentsOfImages();
    ExecuteOfFast(db, argv, now, c);
    ExecuteOnFast(st.Images(), st.Cfg(), argv, now, c);
    TextOfGet(db, argv[1], now);
    var a := st.Call(Read(argv[1], GetString), now);
    out := WriteText(sofar, a, resp3);
    isWrite := false;
  }

  /** SET without options. */
  method FastSet(st: Store, argv: Argv, sofar: Bytes, resp3: bool, now: nat, ghost c: ScoreText)
    returns (isWrite: bool, out: Bytes)
    requires st.Valid() && Addressable(Live(st.Contents(), now))
    requires |argv| == 3 && Named(Upper(argv[0]), "SET")
    modifies st, st.shards, set s | s in st.shards :: s.pol
    ensures st.Valid()
    ensures st.shards == old(st.shards) || (fresh(st.shards) && forall s | s in st.shards :: fresh(s.pol))
    ensures |st.shards| == |old(st.shards)| > 0
    ensures ServedAs(old(st.Images()), st.Images(), st.Cfg(), argv, now, c, resp3, sofar, out, isWrite)
    ensures st.maxmemory == 0 ==> Live(st.Contents(), now) == Live(Execute(old(st.Contents()), argv, now, c).0, now)
  {
    hide Store.Valid, Store.Contents, Store.Images, Apply, Live, Shard.Valid, Upper, Ascii, Execute, ExecuteOn, StoreStep,
         Encoded, Addressable, SubBindings;
    ghost var db := st.Contents();
    st.ContentsOfImages();
    ExecuteOfFast(db, argv, now, c);
    ExecuteOnFast(st.Images(), st.Cfg(), argv, now, c);
    AsciiDiffer("GET", "SET", 0);
    PlainSetSucceeds(db, argv[1], argv[2], now);
    var a := st.Call(SetString(argv[1], argv[2], PLAIN), now);
    out := WriteSimple(sofar, Ascii("OK"), resp3);
    isWrite := true;
  }

  /** INCR and DECR. */
  method FastIncr(st: Store, argv: Argv, delta: int, sofar: Bytes, resp3: bool, now: nat, ghost c: ScoreText)
    returns (isWrite: bool, out: Bytes)
    requires st.Valid() && Addressable(Live(st.Contents(), now))
    requires |argv| == 2 && (if delta == 1 then Named(Upper(argv[0]), "INCR") else delta == -1 && Named(Upper(argv[0]), "DECR"))
    modifies st, st.shards, set s | s in st.shards :: s.pol
    ensures st.Valid()
    ensures st.shards == old(st.shards) || (fresh(st.shards) && forall s | s in st.shards :: fresh(s.pol))
    ensures |st.shards| == |old(st.shards)| > 0
    ensures ServedAs(old(st.Images()), st.Images(), st.Cfg(), argv, now, c, resp3, sofar, out, isWrite)
    ensures st.maxmemory == 0 ==> Live(st.Contents(), now) == Live(Execute(old(st.Contents()), argv, now, c).0, now)
  {
    hide Store.Valid, Store.Contents, Store.Images, Apply, Live, Shard.Valid, Upper, Ascii, Execute, ExecuteOn, StoreStep,
         Encoded, Addressable, SubBindings;
    ghost var db := st.Contents();
    st.ContentsOfImages();
    ExecuteOfFast(db, argv, now, c);
    ExecuteOnFast(st.Images(), st.Cfg(), argv, now, c);
    var text := if delta == 1 then "INCR" else "DECR";
    NotTimed(text);
    NotString(text);
    AsciiDiffer("INCR", "DECR", 0);
    AnswerOfIncr(db, argv[1], delta, now);
    var a := st.Call(IncrBy(argv[1], delta), now);
    isWrite, out := WriteCounter(sofar, a, resp3);
  }

  /**
   * The fast path refines the general one: for every command it accepts, the reply bytes in both
   * protocol versions, the effect on the store and the write flag are those of dispatch and encode.
   */
  method ServeFast(st: Store, argv: Argv, sofar: Bytes, resp3: bool, now: nat, ghost c: ScoreText)
    returns (handled: Option<bool>, out: Bytes)
    requires st.Valid() && argv != [] && Addressable(Live(st.Contents(), now))
    modifies st, st.shards, set s | s in st.shards :: s.pol
    ensures st.Valid()
    ensures st.shards == old(st.shards) || (fresh(st.shards) && forall s | s in st.shards :: fresh(s.pol))
    ensures |st.shards| == |old(st.shards)| > 0
    ensures handled.Some? <==> FastCall(argv).Some? || (|argv| == 1 && Named(Upper(argv[0]), "PING"))
    ensures handled.None? ==> out == sofar && st.Images() == old(st.Images()) && st.Contents() == old(st.Contents())
    ensures handled.Some? ==>
              ServedAs(old(st.Images()), st.Images(), st.Cfg(), argv, now, c, resp3, sofar, out, handled.value)
    ensures handled.Some? && st.maxmemory == 0 ==>
              Live(st.Contents(), now) == Live(Execute(old(st.Contents()), argv, now, c).0, now)
  {
    hide Store.Valid, Store.Contents, Store.Images, Shard.Valid, Upper, Ascii, ServedAs, Addressable, Encoded, Live, Execute;
    st.ContentsOfImages();
    var name := Upper(argv[0]);
    ghost var db := st.Contents();
    var w;
    if Named(name, "GET") && |argv| == 2 {
      w, out := FastGet(st, argv, sofar, resp3, now, c);
    } else if Named(name, "SET") && |argv| == 3 {
      w, out := FastSet(st, argv, sofar, resp3, now, c);
    } else if Named(name, "PING") && |argv| == 1 {
      out := WriteSimple(sofar, Ascii("PONG"), resp3);
      w := false;
      ExecuteOfPing(db, argv, now, c);
      PingServed(st.Images(), st.Cfg(), argv, now, c, resp3, sofar);
    } else if Named(name, "INCR") && |argv| == 2 {
      w, out := FastIncr(st, argv, 1, sofar, resp3, now, c);
    } else if Named(name, "DECR") && |argv| == 2 {
      w, out := FastIncr(st, argv, -1, sofar, resp3, now, c);
    } else {
      return None, sofar;
    }
    handled := Some(w);
  }

  lemma {:induction false} PingServed(ims: seq<Image>, cfg: Setup, argv: Argv, now: nat, c: ScoreText, resp3: bool, sofar: Bytes)
    requires |ims| > 0 && |argv| == 1 && Named(Upper(argv[0]), "PING")
    ensures ServedAs(ims, ims, cfg, argv, now, c, resp3, sofar, sofar + Encoded(Simple(Ascii("PONG")), resp3), false)
  {
    hide ExecuteOn, Ascii, Upper, Encoded;
    ExecuteOnPing(ims, cfg, argv, now, c);
  }

  lemma PlainSetSucceeds(db: Db, k: Bytes, v: Bytes, now: nat)
    ensures Apply(db, SetString(k, v, PLAIN), now).1 == Flag(true)
  {
  }
}
