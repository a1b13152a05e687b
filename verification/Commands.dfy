/** Command dispatch: from an argument vector to store calls and a reply. */
module Commands {
  import opened Basics
  import opened Decimal
  import opened Resp
  import opened Values
  import opened Keyspace
  import opened Replies
  import Glob

  // ---------- names ----------

  const NAME_MAX := 24

  function UpperByte(b: Byte): Byte {
    if 97 <= b <= 122 then b - 32 else b
  }

  function UpperAll(s: Bytes): (r: Bytes)
    ensures |r| == |s|
  {
    seq(|s|, i requires 0 <= i < |s| => UpperByte(s[i]))
  }

  /** A command name: the first 24 bytes, upper-cased. */
  function Upper(s: Bytes): Bytes {
    UpperAll(s[..Min(|s|, NAME_MAX)])
  }

  predicate Named(name: Bytes, text: string) {
    name == Ascii(text)
  }

  /** The writes a read-only replica refuses. */
  predicate IsWriteCommand(name: Bytes) {
    || Named(name, "SET") || Named(name, "SETNX") || Named(name, "SETEX") || Named(name, "PSETEX")
    || Named(name, "GETSET") || Named(name, "MSET") || Named(name, "APPEND") || Named(name, "INCR")
    || Named(name, "DECR") || Named(name, "INCRBY") || Named(name, "DECRBY") || Named(name, "DEL")
    || Named(name, "UNLINK") || Named(name, "EXPIRE") || Named(name, "PEXPIRE") || Named(name, "EXPIREAT")
    || Named(name, "PEXPIREAT") || Named(name, "PERSIST") || Named(name, "FLUSHALL") || Named(name, "FLUSHDB")
    || Named(name, "LPUSH") || Named(name, "RPUSH") || Named(name, "LPOP") || Named(name, "RPOP")
    || Named(name, "HSET") || Named(name, "HMSET") || Named(name, "HDEL") || Named(name, "SADD")
    || Named(name, "SREM") || Named(name, "ZADD") || Named(name, "ZREM")
  }

  // ---------- what one command does ----------

  datatype Outcome = Outcome(reply: Reply, quit: bool, persist: bool)

  function R(reply: Reply): Outcome {
    Outcome(reply, false, false)
  }

  function W(reply: Reply): Outcome {
    Outcome(reply, false, true)
  }

  function Maybe(reply: Reply, dirty: bool): Outcome {
    Outcome(reply, false, dirty)
  }

  /**
   * A command is a list of store calls, and then, depending on their answers, either a reply or
   * one last call and a reply.
   */
  datatype Plan = Plan(ops: seq<Op>, next: seq<Answer> -> Tail)

  datatype Tail = Stop(out: Outcome) | Last(op: Op, finish: Answer -> Outcome)

  function RunOps(db: Db, ops: seq<Op>, now: nat): (Db, seq<Answer>)
  {
    if ops == [] then (db, [])
    else
      var (before, got) := RunOps(db, ops[..|ops| - 1], now);
      var (after, a) := Apply(before, ops[|ops| - 1], now);
      (after, got + [a])
  }

  /** Running a command on the reference keyspace. */
  function Eval(db: Db, plan: Plan, now: nat): (Db, Outcome) {
    var (mid, got) := RunOps(db, plan.ops, now);
    match plan.next(got)
    case Stop(out) => (mid, out)
    case Last(op, finish) =>
      var (after, a) := Apply(mid, op, now);
      (after, finish(a))
  }

  function Reply1(reply: Reply): Plan {
    Plan([], (got: seq<Answer>) => Stop(R(reply)))
  }

  function First(got: seq<Answer>): Answer {
    if got == [] then Done else got[0]
  }

  /** One call, then a reply. */
  function One(op: Op, finish: Answer -> Outcome): Plan {
    Plan([], (got: seq<Answer>) => Last(op, finish))
  }

  function WrongArgs(cmd: string): Plan {
    Reply1(Refuse(Ascii("wrong number of arguments for '" + cmd + "' command")))
  }

  /** The reply quotes the name; how a name outside ASCII is quoted is not modelled. */
  function Unknown(argv: Argv): Plan
    requires argv != []
  {
    if forall i | 0 <= i < |argv[0]| :: argv[0][i] < 128
    then Reply1(Refuse(Ascii("unknown command '") + argv[0] + Ascii("'")))
    else Reply1(Info)
  }

  const OK := Simple(Ascii("OK"))

  // ---------- reply builders ----------

  function BulkReply(a: Answer): Reply {
    if a.Fail? then StoreErr(a.error) else if a.Text? then Bulk(a.text) else Info
  }

  function NumberReply(a: Answer): Reply {
    if a.Fail? then StoreErr(a.error)
    else if a.Number? then Int(a.n)
    else if a.Flag? then Int(if a.b then 1 else 0)
    else Info
  }

  function ListReply(xs: seq<Bytes>): Reply {
    Array(seq(|xs|, i requires 0 <= i < |xs| => Bulk(Some(xs[i]))))
  }

  function ListingReply(a: Answer): Reply {
    if a.Fail? then StoreErr(a.error) else if a.Listing? then ListReply(a.items) else Info
  }

  /** A reply and whether the command must be logged: a count of changes above zero. */
  function IfChanged(a: Answer): Outcome {
    Maybe(NumberReply(a), a.Number? && a.n > 0)
  }

  /** A write that is logged whenever it did not fail. */
  function IfDone(a: Answer, reply: Reply): Outcome {
    if a.Fail? then R(StoreErr(a.error)) else W(reply)
  }

  function CountFlags(got: seq<Answer>): nat {
    if got == [] then 0
    else CountFlags(got[..|got| - 1]) + (if got[|got| - 1] == Flag(true) then 1 else 0)
  }

  /** Calls of one kind on several keys. */
  function Each(keys: seq<Bytes>, f: Bytes -> Op): seq<Op> {
    seq(|keys|, i requires 0 <= i < |keys| => f(keys[i]))
  }

  /** Scores are 64-bit keys in the total order of floats; their text form is a parameter. */
  datatype ScoreText = ScoreText(fmt: int -> Bytes, parse: Bytes -> Option<int>)

  /** Score and member by turns; nothing if some score does not parse. */
  function ScorePairs(args: seq<Bytes>, c: ScoreText): Option<seq<(Bytes, int)>> {
    if |args| < 2 then Some([])
    else
      match c.parse(args[0])
      case None => None
      case Some(x) =>
        var rest := ScorePairs(args[2..], c);
        if rest.None? then None else Some([(args[1], x)] + rest.value)
  }

  function Pairs(args: seq<Bytes>): seq<(Bytes, Bytes)> {
    if |args| < 2 then [] else [(args[0], args[1])] + Pairs(args[2..])
  }

  function SetEach(args: seq<Bytes>): seq<Op> {
    if |args| < 2 then [] else [SetString(args[0], args[1], PLAIN)] + SetEach(args[2..])
  }

  function SetManyPlan(args: seq<Bytes>): Plan {
    Plan(SetEach(args), (got: seq<Answer>) => Stop(W(OK)))
  }

  /** Logged if at least one key was there. */
  function DeletePlan(keys: seq<Bytes>): Plan {
    Plan(Each(keys, k => Delete(k)), (got: seq<Answer>) => Stop(Maybe(Int(CountFlags(got)), CountFlags(got) > 0)))
  }

  // ---------- commands that take no time argument ----------

  function StringPlan(argv: Argv): Option<Plan>
    requires argv != []
  {
    var name, n := Upper(argv[0]), |argv|;
    if Named(name, "MSET") then
      if n < 3 || n % 2 == 0 then Some(WrongArgs("mset"))
      else Some(SetManyPlan(argv[1..]))
    else if Named(name, "GET") && n == 2 then
      Some(One(Read(argv[1], GetString), (a: Answer) => R(BulkReply(a))))
    else if Named(name, "GETSET") && n == 3 then
      Some(Plan([Read(argv[1], GetString)], (got: seq<Answer>) =>
        if First(got).Fail? then Stop(R(StoreErr(First(got).error)))
        else Last(SetString(argv[1], argv[2], PLAIN), (a: Answer) => W(BulkReply(First(got))))))
    else if Named(name, "SETNX") && n == 3 then
      Some(One(SetString(argv[1], argv[2], PLAIN.(nx := true)), (a: Answer) => Maybe(NumberReply(a), a == Flag(true))))
    else if Named(name, "MGET") && n >= 2 then
      Some(Plan(Each(argv[1..], k => Read(k, GetString)), (got: seq<Answer>) =>
        Stop(R(Array(seq(|got|, i requires 0 <= i < |got| => if got[i].Text? then Bulk(got[i].text) else Bulk(None)))))))
    else if Named(name, "APPEND") && n == 3 then
      Some(One(Append(argv[1], argv[2]), (a: Answer) => IfDone(a, NumberReply(a))))
    else if Named(name, "STRLEN") && n == 2 then
      Some(One(Read(argv[1], StrLen), (a: Answer) => R(NumberReply(a))))
    else None
  }

  function CounterPlan(argv: Argv): Option<Plan>
    requires argv != []
  {
    var name, n := Upper(argv[0]), |argv|;
    if Named(name, "INCR") then
      if n != 2 then Some(WrongArgs("incr")) else Some(One(IncrBy(argv[1], 1), (a: Answer) => IfDone(a, NumberReply(a))))
    else if Named(name, "DECR") then
      if n != 2 then Some(WrongArgs("incr")) else Some(One(IncrBy(argv[1], -1), (a: Answer) => IfDone(a, NumberReply(a))))
    else if Named(name, "INCRBY") || Named(name, "DECRBY") then
      if n != 3 then Some(WrongArgs("incrby"))
      else
        var d := ParseI64(argv[2]);
        if d.None? then Some(Reply1(Refuse(NOT_INTEGER)))
        else if UpperAll(argv[0]) == Ascii("DECRBY") && d.value == I64_MIN
        then Some(Reply1(Refuse(Ascii("decrement would overflow"))))
        else
          var delta := if UpperAll(argv[0]) == Ascii("DECRBY") then -d.value else d.value;
          Some(One(IncrBy(argv[1], delta), (a: Answer) => IfDone(a, NumberReply(a))))
    else None
  }

  function PopPlan(argv: Argv, left: bool): Plan
    requires argv != []
  {
    if |argv| != 2 && |argv| != 3 then WrongArgs(if left then "lpop" else "rpop")
    else if |argv| == 2 then
      One(Modify(argv[1], Pop(1, left)), (a: Answer) =>
        if a.Fail? then R(StoreErr(a.error))
        else if a.Listing? && a.items != [] then W(Bulk(Some(a.items[0])))
        else R(Bulk(None)))
    else
      var c := ParseI64(argv[2]);
      if c.None? || c.value < 0 then Reply1(Refuse(Ascii("value is out of range, must be positive")))
      else
        One(Modify(argv[1], Pop(c.value, left)), (a: Answer) =>
          if a.Fail? then R(StoreErr(a.error))
          else if a.Listing? && a.items != [] then W(ListReply(a.items))
          else R(NullArray))
  }

  function ListPlan(argv: Argv): Option<Plan>
    requires argv != []
  {
    var name, n := Upper(argv[0]), |argv|;
    if Named(name, "LPUSH") || Named(name, "RPUSH") then
      if n < 3 then Some(WrongArgs(if Named(name, "LPUSH") then "lpush" else "rpush"))
      else Some(One(Modify(argv[1], Push(argv[2..], Named(name, "LPUSH"))), (a: Answer) => IfDone(a, NumberReply(a))))
    else if Named(name, "LPOP") then Some(PopPlan(argv, true))
    else if Named(name, "RPOP") then Some(PopPlan(argv, false))
    else if Named(name, "LLEN") && n == 2 then Some(One(Read(argv[1], ListLen), (a: Answer) => R(NumberReply(a))))
    else if Named(name, "LRANGE") && n == 4 then
      var start, stop := ParseI64(argv[2]), ParseI64(argv[3]);
      if start.None? || stop.None? then Some(Reply1(Refuse(NOT_INTEGER)))
      else Some(One(Read(argv[1], ListSlice(start.value, stop.value)), (a: Answer) => R(ListingReply(a))))
    else None
  }

  function HashPlan(argv: Argv): Option<Plan>
    requires argv != []
  {
    var name, n := Upper(argv[0]), |argv|;
    if Named(name, "HSET") || Named(name, "HMSET") then
      if n < 4 || n % 2 != 0 then Some(WrongArgs(if Named(name, "HMSET") then "hmset" else "hset"))
      else
        Some(One(Modify(argv[1], HSet(Pairs(argv[2..]))), (a: Answer) =>
          IfDone(a, if Named(name, "HMSET") then OK else NumberReply(a))))
    else if Named(name, "HGET") && n == 3 then
      Some(One(Read(argv[1], HashGet(argv[2])), (a: Answer) => R(BulkReply(a))))
    else if Named(name, "HDEL") && n >= 3 then
      Some(One(Modify(argv[1], HDel(argv[2..])), (a: Answer) => IfChanged(a)))
    else if Named(name, "HLEN") && n == 2 then
      Some(One(Read(argv[1], HashLen), (a: Answer) => R(NumberReply(a))))
    else if Named(name, "HEXISTS") && n == 3 then
      Some(One(Read(argv[1], HashGet(argv[2])), (a: Answer) =>
        R(if a.Text? then Int(if a.text.Some? then 1 else 0) else BulkReply(a))))
    else if (Named(name, "HGETALL") || Named(name, "HKEYS") || Named(name, "HVALS")) && n == 2 then
      Some(One(Read(argv[1], HashAll), (a: Answer) => R(if a.Fail? then StoreErr(a.error) else Unordered(a))))
    else if Named(name, "HMGET") && n >= 3 then
      Some(Plan(Each(argv[2..], f => Read(argv[1], HashGet(f))), (got: seq<Answer>) =>
        Stop(R(Array(seq(|got|, i requires 0 <= i < |got| => if got[i].Text? then Bulk(got[i].text) else Bulk(None)))))))
    else None
  }

  function SetPlan(argv: Argv): Option<Plan>
    requires argv != []
  {
    var name, n := Upper(argv[0]), |argv|;
    if Named(name, "SADD") && n >= 3 then
      Some(One(Modify(argv[1], SAdd(argv[2..])), (a: Answer) => IfChanged(a)))
    else if Named(name, "SREM") && n >= 3 then
      Some(One(Modify(argv[1], SRem(argv[2..])), (a: Answer) => IfChanged(a)))
    else if Named(name, "SISMEMBER") && n == 3 then
      Some(One(Read(argv[1], SetHas(argv[2])), (a: Answer) => R(NumberReply(a))))
    else if Named(name, "SCARD") && n == 2 then
      Some(One(Read(argv[1], SetCard), (a: Answer) => R(NumberReply(a))))
    else if Named(name, "SMEMBERS") && n == 2 then
      Some(One(Read(argv[1], SetAll), (a: Answer) => R(if a.Fail? then StoreErr(a.error) else Unordered(a))))
    else None
  }

  /** Members of a rank range, with their scores by turns if asked for. */
  function RankReplies(ranks: seq<(int, Bytes)>, withScores: bool, c: ScoreText): seq<Reply> {
    if ranks == [] then []
    else
      [Bulk(Some(ranks[0].1))] + (if withScores then [Bulk(Some(c.fmt(ranks[0].0)))] else [])
      + RankReplies(ranks[1..], withScores, c)
  }

  function RankReply(a: Answer, withScores: bool, c: ScoreText): Reply {
    if a.Fail? then StoreErr(a.error)
    else if a.Scored? then Array(RankReplies(a.ranks, withScores, c))
    else Info
  }

  function ScoreReply(a: Answer, c: ScoreText): Reply {
    if a.Fail? then StoreErr(a.error)
    else if a.Score? && a.score.Some? then Bulk(Some(c.fmt(a.score.value)))
    else Bulk(None)
  }

  function ZSetPlan(argv: Argv, c: ScoreText): Option<Plan>
    requires argv != []
  {
    var name, n := Upper(argv[0]), |argv|;
    if Named(name, "ZADD") then
      if n < 4 || n % 2 != 0 then Some(WrongArgs("zadd"))
      else
        var pairs := ScorePairs(argv[2..], c);
        if pairs.None? then Some(Reply1(Refuse(Ascii("value is not a valid float"))))
        else Some(One(Modify(argv[1], ZAdd(pairs.value)), (a: Answer) => IfDone(a, NumberReply(a))))
    else if Named(name, "ZSCORE") && n == 3 then
      Some(One(Read(argv[1], ZScore(argv[2])), (a: Answer) => R(ScoreReply(a, c))))
    else if Named(name, "ZREM") && n >= 3 then
      Some(One(Modify(argv[1], ZRem(argv[2..])), (a: Answer) => IfChanged(a)))
    else if Named(name, "ZCARD") && n == 2 then
      Some(One(Read(argv[1], ZCard), (a: Answer) => R(NumberReply(a))))
    else if Named(name, "ZRANGE") && n >= 4 then
      var start, stop := ParseI64(argv[2]), ParseI64(argv[3]);
      if start.None? || stop.None? then Some(Reply1(Refuse(NOT_INTEGER)))
      else
        var withScores := n >= 5 && UpperAll(argv[4]) == Ascii("WITHSCORES");
        Some(One(Read(argv[1], ZSlice(start.value, stop.value)), (a: Answer) =>
          R(RankReply(a, withScores, c))))
    else None
  }

  /** The pattern of a SCAN, from its options. */
  function ScanPattern(argv: Argv, i: nat, pattern: Option<Bytes>): Option<Bytes>
    decreases |argv| - i
  {
    if i >= |argv| then pattern
    else
      var opt := UpperAll(argv[i]);
      if opt == Ascii("MATCH") then ScanPattern(argv, i + 2, if i + 1 < |argv| then Some(argv[i + 1]) else None)
      else if opt == Ascii("COUNT") || opt == Ascii("TYPE") then ScanPattern(argv, i + 2, pattern)
      else ScanPattern(argv, i + 1, pattern)
  }

  function Selected(a: Answer, pattern: Option<Bytes>): Reply {
    if a.Members? && pattern.Some? then Unordered(Members(set k | k in a.members && Glob.Matches(pattern.value, k)))
    else Unordered(a)
  }

  function KindName(k: Kind): Bytes {
    match k
    case KString => Ascii("string")
    case KList => Ascii("list")
    case KHash => Ascii("hash")
    case KSet => Ascii("set")
    case KZSet => Ascii("zset")
    case KNone => Ascii("none")
  }

  function TtlReply(a: Answer, seconds: bool): Reply {
    if !a.Life? then Info
    else
      match a.ttl
      case NoKey => Int(-2)
      case NoExpiry => Int(-1)
      case Millis(ms) => Int(WrapI64(if seconds then (ms + 999) / 1000 else ms))
  }

  function KeyPlan(argv: Argv): Option<Plan>
    requires argv != []
  {
    var name, n := Upper(argv[0]), |argv|;
    if (Named(name, "DEL") || Named(name, "UNLINK")) && n >= 2 then
      Some(DeletePlan(argv[1..]))
    else if Named(name, "EXISTS") && n >= 2 then
      Some(Plan(Each(argv[1..], k => Read(k, Exists)), (got: seq<Answer>) => Stop(R(Int(CountFlags(got))))))
    else if Named(name, "TYPE") && n == 2 then
      Some(One(Read(argv[1], TypeName), (a: Answer) => R(if a.Type? then Simple(KindName(a.kind)) else Info)))
    else if Named(name, "PERSIST") && n == 2 then
      Some(Plan([Read(argv[1], TimeToLive)], (got: seq<Answer>) =>
        if First(got).Life? && First(got).ttl.Millis? then Last(ExpireAt(argv[1], None), (a: Answer) => W(Int(1)))
        else Stop(R(Int(0)))))
    else if Named(name, "TTL") || Named(name, "PTTL") then
      if n != 2 then Some(WrongArgs("ttl"))
      else Some(One(Read(argv[1], TimeToLive), (a: Answer) => R(TtlReply(a, Named(name, "TTL")))))
    else if Named(name, "KEYS") && n == 2 then
      Some(One(ListKeys, (a: Answer) => R(Selected(a, Some(argv[1])))))
    else if Named(name, "SCAN") && n >= 2 then
      Some(One(ListKeys, (a: Answer) => R(Selected(a, ScanPattern(argv, 2, None)))))
    else None
  }

  /** PING, ECHO, QUIT and FLUSHALL; the introspection commands touch no key. */
  function ServerPlan(argv: Argv): Option<Plan>
    requires argv != []
  {
    var name, n := Upper(argv[0]), |argv|;
    if Named(name, "PING") then
      if n == 1 then Some(Reply1(Simple(Ascii("PONG"))))
      else if n == 2 then Some(Reply1(Bulk(Some(argv[1]))))
      else Some(WrongArgs("ping"))
    else if Named(name, "ECHO") && n == 2 then Some(Reply1(Bulk(Some(argv[1]))))
    else if Named(name, "QUIT") then Some(Plan([], (got: seq<Answer>) => Stop(Outcome(OK, true, false))))
    else if Named(name, "SELECT") then Some(Reply1(OK))
    else if Named(name, "FLUSHALL") || Named(name, "FLUSHDB") then Some(One(FlushAll, (a: Answer) => W(OK)))
    else if Named(name, "HELLO") || Named(name, "AUTH") || Named(name, "COMMAND") || Named(name, "CONFIG")
            || Named(name, "CLIENT") || Named(name, "INFO") || Named(name, "DBSIZE")
            || Named(name, "SAVE") || Named(name, "BGSAVE") then Some(Reply1(Info))
    else None
  }

  function OrElse(a: Option<Plan>, b: Option<Plan>): Option<Plan> {
    if a.Some? then a else b
  }

  /** Every command whose effect does not depend on when it runs. */
  function UntimedPlan(argv: Argv, c: ScoreText): Option<Plan>
    requires argv != []
  {
    OrElse(ServerPlan(argv), OrElse(StringPlan(argv), OrElse(CounterPlan(argv), OrElse(ListPlan(argv),
      OrElse(HashPlan(argv), OrElse(SetPlan(argv), OrElse(ZSetPlan(argv, c), KeyPlan(argv))))))))
  }

  // ---------- commands that set an expiry ----------

  /** 64-bit unsigned arithmetic of the release build. */
  function U64(n: nat): nat {
    n % U64_LIMIT
  }

  datatype SetArgs = SetArgs(opts: SetOptions, wantGet: bool)

  function ExpiryOf(opt: Bytes, arg: int, now: nat): nat {
    var a := Max(arg, 0);
    if opt == Ascii("EX") then U64(now + U64(a * 1000))
    else if opt == Ascii("PX") then U64(now + a)
    else if opt == Ascii("EXAT") then U64(a * 1000)
    else a
  }

  predicate IsExpiryOption(opt: Bytes) {
    opt == Ascii("EX") || opt == Ascii("PX") || opt == Ascii("EXAT") || opt == Ascii("PXAT")
  }

  /** The options of SET from position `i` on, or the error that stops the scan. */
  function ScanSetOptions(argv: Argv, i: nat, s: SetArgs, now: nat): Result<SetArgs, Reply>
    decreases |argv| - i
  {
    if i >= |argv| then Ok(s)
    else
      var opt := UpperAll(argv[i]);
      if opt == Ascii("NX") then ScanSetOptions(argv, i + 1, s.(opts := s.opts.(nx := true)), now)
      else if opt == Ascii("XX") then ScanSetOptions(argv, i + 1, s.(opts := s.opts.(xx := true)), now)
      else if opt == Ascii("KEEPTTL") then ScanSetOptions(argv, i + 1, s.(opts := s.opts.(keepTtl := true)), now)
      else if opt == Ascii("GET") then ScanSetOptions(argv, i + 1, s.(wantGet := true), now)
      else if IsExpiryOption(opt) then
        var arg := if i + 1 < |argv| then ParseI64(argv[i + 1]) else None;
        if arg.None? then Result.Err(Refuse(NOT_INTEGER))
        else ScanSetOptions(argv, i + 2, s.(opts := s.opts.(expireAt := Some(ExpiryOf(opt, arg.value, now)))), now)
      else Result.Err(Refuse(Ascii("syntax error")))
  }

  /** SET once its options are known. */
  function SetWith(key: Bytes, value: Bytes, s: SetArgs): Plan {
    Plan(if s.wantGet then [Read(key, GetString)] else [], (got: seq<Answer>) =>
      if s.wantGet && First(got).Fail? then Stop(R(StoreErr(First(got).error)))
      else
        Last(SetString(key, value, s.opts), (a: Answer) =>
          Maybe(if s.wantGet then BulkReply(First(got)) else if a == Flag(true) then OK else Bulk(None),
                a == Flag(true))))
  }

  function SetCommand(argv: Argv, now: nat): Plan
    requires argv != []
  {
    if |argv| < 3 then WrongArgs("set")
    else
      match ScanSetOptions(argv, 3, SetArgs(PLAIN, false), now)
      case Err(e) => Reply1(e)
      case Ok(s) => SetWith(argv[1], argv[2], s)
  }

  function SetExCommand(argv: Argv, ms: bool, now: nat): Plan
    requires argv != []
  {
    if |argv| != 4 then WrongArgs(if ms then "psetex" else "setex")
    else
      var n := ParseI64(argv[2]);
      if n.None? then Reply1(Refuse(NOT_INTEGER))
      else if n.value <= 0 then Reply1(Refuse(Ascii("invalid expire time")))
      else
        var at := U64(now + U64(n.value * (if ms then 1 else 1000)));
        One(SetString(argv[1], argv[3], PLAIN.(expireAt := Some(at))), (a: Answer) => W(OK))
  }

  /** Whether a conditional EXPIRE applies; `None` for a flag that does not exist. */
  function ExpireApplies(flag: Bytes, cur: Ttl, at: nat, now: nat): Option<bool> {
    var f := UpperAll(flag);
    if f == Ascii("NX") then Some(cur.NoExpiry?)
    else if f == Ascii("XX") then Some(cur.Millis?)
    else if f == Ascii("GT") then Some(cur.Millis? && at > now + cur.ms)
    else if f == Ascii("LT") then Some(cur.NoExpiry? || (cur.Millis? && at < now + cur.ms))
    else None
  }

  function ExpireCommand(argv: Argv, unit: nat, absolute: bool, now: nat): Plan
    requires argv != []
  {
    if |argv| < 3 then WrongArgs("expire")
    else
      var n := ParseI64(argv[2]);
      if n.None? then Reply1(Refuse(NOT_INTEGER))
      else
        var at := if absolute then U64(Max(n.value, 0) * unit) else U64(now + U64(Max(n.value, 0) * unit));
        var apply := Last(ExpireAt(argv[1], Some(at)), (a: Answer) => W(Int(1)));
        if |argv| == 3 then
          Plan([Read(argv[1], Exists)], (got: seq<Answer>) => if First(got) == Flag(true) then apply else Stop(R(Int(0))))
        else
          Plan([Read(argv[1], TimeToLive)], (got: seq<Answer>) =>
            if !First(got).Life? || First(got).ttl.NoKey? then Stop(R(Int(0)))
            else
              match ExpireApplies(argv[3], First(got).ttl, at, now)
              case None => Stop(R(Refuse(Ascii("Unsupported option"))))
              case Some(ok) => if ok then apply else Stop(R(Int(0))))
  }

  function TimedPlan(argv: Argv, now: nat): Option<Plan>
    requires argv != []
  {
    var name := Upper(argv[0]);
    if Named(name, "SET") then Some(SetCommand(argv, now))
    else if Named(name, "SETEX") then Some(SetExCommand(argv, false, now))
    else if Named(name, "PSETEX") then Some(SetExCommand(argv, true, now))
    else if Named(name, "EXPIRE") then Some(ExpireCommand(argv, 1000, false, now))
    else if Named(name, "PEXPIRE") then Some(ExpireCommand(argv, 1, false, now))
    else if Named(name, "EXPIREAT") then Some(ExpireCommand(argv, 1000, true, now))
    else if Named(name, "PEXPIREAT") then Some(ExpireCommand(argv, 1, true, now))
    else None
  }

  /** `dispatch`. */
  function Dispatch(argv: Argv, now: nat, c: ScoreText): Plan
    requires argv != []
  {
    match OrElse(TimedPlan(argv, now), UntimedPlan(argv, c))
    case Some(p) => p
    case None => Unknown(argv)
  }

  /** One command on the reference keyspace. */
  function Execute(db: Db, argv: Argv, now: nat, c: ScoreText): (Db, Outcome)
    requires argv != []
  {
    Eval(db, Dispatch(argv, now, c), now)
  }
}
