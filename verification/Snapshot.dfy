/** Snapshots: the dump of a dataset, replayed anywhere and at any later time, is the dataset. */
module Snapshot {
  import opened Basics
  import opened Decimal
  import opened Resp
  import opened Frames
  import opened Values
  import opened Keyspace
  import opened Commands
  import opened CommandLog
  import opened Sums
  import opened Stores
  import opened Shards
  import opened S3Fifos
  import opened ZSets
  import FastPath
  import Persistence

  // ---------- the commands of a dump ----------

  function Flat(pairs: seq<(Bytes, Bytes)>): seq<Bytes> {
    if pairs == [] then [] else [pairs[0].0, pairs[0].1] + Flat(pairs[1..])
  }

  /** Score and member by turns, in index order. */
  function FlatRanks(ranks: seq<Rank>, c: ScoreText): seq<Bytes> {
    if ranks == [] then [] else [c.fmt(ranks[0].0), ranks[0].1] + FlatRanks(ranks[1..], c)
  }

  /** No entry twice. */
  ghost predicate Distinct(keys: seq<Bytes>) {
    forall i, j | 0 <= i < j < |keys| :: keys[i] != keys[j]
  }

  ghost predicate DistinctFields<X>(ps: seq<(Bytes, X)>) {
    forall i, j | 0 <= i < j < |ps| :: ps[i].0 != ps[j].0
  }

  /** `argv` recreates the value at the key; hash fields and set members come once, in any order. */
  ghost predicate Recreates(argv: Argv, k: Bytes, v: Value, c: ScoreText) {
    match v
    case Str(s) => argv == [Ascii("SET"), k, s]
    case List(l) => argv == [Ascii("RPUSH"), k] + l
    case Hash(h) => exists ps :: FromPairs(ps) == h && DistinctFields(ps) && argv == [Ascii("HSET"), k] + Flat(ps)
    case Set(s) => exists ms :: Names(ms) == s && Distinct(ms) && argv == [Ascii("SADD"), k] + ms
    case ZSet(z) => argv == [Ascii("ZADD"), k] + FlatRanks(Sorted(Relation(z)), c)
  }

  function ExpiryCommand(k: Bytes, t: nat): Argv {
    [Ascii("PEXPIREAT"), k, DecimalOf(t)]
  }

  /** What an entry becomes in a dump: one command, and a second one for its expiry. */
  ghost predicate Dumps(cmds: seq<Argv>, k: Bytes, e: Entry, c: ScoreText) {
    && |cmds| == (if e.expireAt.Some? then 2 else 1)
    && Recreates(cmds[0], k, e.value, c)
    && (e.expireAt.Some? ==> cmds[1] == ExpiryCommand(k, e.expireAt.value))
  }

  /** A value survives its text form: its scores do. */
  ghost predicate Printable(v: Value, c: ScoreText) {
    v.ZSet? ==> forall m | m in v.scores :: c.parse(c.fmt(v.scores[m])) == Some(v.scores[m])
  }

  // ---------- names ----------

  lemma UpperOfName(text: string)
    requires text == "SET" || text == "RPUSH" || text == "HSET" || text == "SADD" || text == "ZADD" || text == "PEXPIREAT"
    ensures Upper(Ascii(text)) == Ascii(text)
  {
    var b := Ascii(text);
    assert b[..Min(|b|, NAME_MAX)] == b;
    assert forall i | 0 <= i < |text| :: 65 <= text[i] as int <= 90;
    assert UpperAll(b) == b;
  }

  /** Four-letter names that come before the collections in the dispatcher. */
  lemma NotBefore(text: string)
    requires text == "HSET" || text == "SADD" || text == "ZADD"
    ensures var b := Ascii(text);
            && b != Ascii("PING") && b != Ascii("ECHO") && b != Ascii("QUIT") && b != Ascii("AUTH")
            && b != Ascii("INFO") && b != Ascii("SAVE") && b != Ascii("MSET") && b != Ascii("MGET")
            && b != Ascii("INCR") && b != Ascii("DECR") && b != Ascii("LPOP") && b != Ascii("RPOP") && b != Ascii("LLEN")
  {
    hide Ascii;
    AsciiDiffer(text, "PING", 0);
    AsciiDiffer(text, "ECHO", 0);
    AsciiDiffer(text, "QUIT", 0);
    AsciiDiffer(text, "AUTH", 0);
    AsciiDiffer(text, "INFO", 0);
    AsciiDiffer(text, "SAVE", 2);
    AsciiDiffer(text, "MSET", 0);
    AsciiDiffer(text, "MGET", 0);
    AsciiDiffer(text, "INCR", 0);
    AsciiDiffer(text, "DECR", 0);
    AsciiDiffer(text, "LPOP", 0);
    AsciiDiffer(text, "RPOP", 0);
    AsciiDiffer(text, "LLEN", 0);
  }

  lemma EarlierPlansAreNone(argv: Argv, text: string, now: nat)
    requires argv != [] && (text == "HSET" || text == "SADD" || text == "ZADD") && Upper(argv[0]) == Ascii(text)
    ensures TimedPlan(argv, now).None? && ServerPlan(argv).None? && StringPlan(argv).None?
    ensures CounterPlan(argv).None? && ListPlan(argv).None?
  {
    hide Ascii, Upper, TimedPlan, ServerPlan, StringPlan, CounterPlan, ListPlan;
    NotTimedNorServer(argv, text, now);
    NotStringNorCounter(argv, text);
    NotList(argv, text);
  }

  lemma NotTimedNorServer(argv: Argv, text: string, now: nat)
    requires argv != [] && (text == "HSET" || text == "SADD" || text == "ZADD") && Upper(argv[0]) == Ascii(text)
    ensures TimedPlan(argv, now).None? && ServerPlan(argv).None?
  {
    hide Ascii, Upper;
    NotBefore(text);
  }

  lemma NotStringNorCounter(argv: Argv, text: string)
    requires argv != [] && (text == "HSET" || text == "SADD" || text == "ZADD") && Upper(argv[0]) == Ascii(text)
    ensures StringPlan(argv).None? && CounterPlan(argv).None?
  {
    hide Ascii, Upper;
    NotBefore(text);
  }

  lemma NotList(argv: Argv, text: string)
    requires argv != [] && (text == "HSET" || text == "SADD" || text == "ZADD") && Upper(argv[0]) == Ascii(text)
    ensures ListPlan(argv).None?
  {
    hide Ascii, Upper;
    NotBefore(text);
  }

  lemma RpushIsFourth(argv: Argv, now: nat)
    requires argv != [] && Upper(argv[0]) == Ascii("RPUSH")
    ensures TimedPlan(argv, now).None? && ServerPlan(argv).None? && StringPlan(argv).None? && CounterPlan(argv).None?
    ensures !Named(Upper(argv[0]), "LPUSH")
  {
    hide Ascii, Upper;
    AsciiDiffer("RPUSH", "SETEX", 0);
    AsciiDiffer("RPUSH", "HELLO", 0);
    AsciiDiffer("RPUSH", "SETNX", 0);
    AsciiDiffer("RPUSH", "LPUSH", 0);
  }

  lemma CollectionNames()
    ensures Ascii("SADD") != Ascii("HSET") && Ascii("SADD") != Ascii("HGET")
    ensures Ascii("SADD") != Ascii("HDEL") && Ascii("SADD") != Ascii("HLEN")
    ensures Ascii("ZADD") != Ascii("HSET") && Ascii("ZADD") != Ascii("HGET")
    ensures Ascii("ZADD") != Ascii("HDEL") && Ascii("ZADD") != Ascii("HLEN")
    ensures Ascii("ZADD") != Ascii("SADD") && Ascii("ZADD") != Ascii("SREM")
  {
    hide Ascii;
    AsciiDiffer("SADD", "HSET", 0);
    AsciiDiffer("SADD", "HGET", 0);
    AsciiDiffer("SADD", "HDEL", 0);
    AsciiDiffer("SADD", "HLEN", 0);
    AsciiDiffer("ZADD", "HSET", 0);
    AsciiDiffer("ZADD", "HGET", 0);
    AsciiDiffer("ZADD", "HDEL", 0);
    AsciiDiffer("ZADD", "HLEN", 0);
    AsciiDiffer("ZADD", "SADD", 0);
    AsciiDiffer("ZADD", "SREM", 0);
  }

  // ---------- what each command restores ----------

  /** A command that makes one call. */
  lemma ExecuteOne(db: Db, argv: Argv, now: nat, c: ScoreText, op: Op)
    requires argv != []
    requires var p := Dispatch(argv, now, c); p.ops == [] && p.next([]).Last? && p.next([]).op == op
    ensures Execute(db, argv, now, c).0 == Apply(db, op, now).0
  {
    hide Dispatch, Apply;
  }

  lemma RpushCalls(argv: Argv, now: nat, c: ScoreText)
    requires |argv| >= 3 && argv[0] == Ascii("RPUSH")
    ensures var p := Dispatch(argv, now, c);
            p.ops == [] && p.next([]).Last? && p.next([]).op == Modify(argv[1], Push(argv[2..], false))
  {
    hide Ascii, Upper, TimedPlan, ServerPlan, StringPlan, CounterPlan, HashPlan, SetPlan, ZSetPlan, KeyPlan, NumberReply;
    UpperOfName("RPUSH");
    RpushIsFourth(argv, now);
  }

  lemma HsetCalls(argv: Argv, now: nat, c: ScoreText)
    requires |argv| >= 4 && |argv| % 2 == 0 && argv[0] == Ascii("HSET")
    ensures var p := Dispatch(argv, now, c);
            p.ops == [] && p.next([]).Last? && p.next([]).op == Modify(argv[1], HSet(Pairs(argv[2..])))
  {
    hide Ascii, Upper, TimedPlan, ServerPlan, StringPlan, CounterPlan, ListPlan, SetPlan, ZSetPlan, KeyPlan, NumberReply, Pairs;
    UpperOfName("HSET");
    EarlierPlansAreNone(argv, "HSET", now);
  }

  lemma SaddCalls(argv: Argv, now: nat, c: ScoreText)
    requires |argv| >= 3 && argv[0] == Ascii("SADD")
    ensures var p := Dispatch(argv, now, c);
            p.ops == [] && p.next([]).Last? && p.next([]).op == Modify(argv[1], SAdd(argv[2..]))
  {
    hide Ascii, Upper, TimedPlan, ServerPlan, StringPlan, CounterPlan, ListPlan, ZSetPlan, KeyPlan, NumberReply, Pairs;
    UpperOfName("SADD");
    EarlierPlansAreNone(argv, "SADD", now);
    CollectionNames();
  }

  lemma {:induction false} ZaddCalls(argv: Argv, now: nat, c: ScoreText)
    requires |argv| >= 4 && |argv| % 2 == 0 && argv[0] == Ascii("ZADD") && ScorePairs(argv[2..], c).Some?
    ensures var p := Dispatch(argv, now, c);
            p.ops == [] && p.next([]).Last? && p.next([]).op == Modify(argv[1], ZAdd(ScorePairs(argv[2..], c).value))
  {
    hide Ascii, Upper, TimedPlan, ServerPlan, StringPlan, CounterPlan, ListPlan, KeyPlan, NumberReply, Pairs, ScorePairs;
    UpperOfName("ZADD");
    EarlierPlansAreNone(argv, "ZADD", now);
    CollectionNames();
  }

  lemma {:induction false} PairsOfFlat(ps: seq<(Bytes, Bytes)>)
    ensures |Flat(ps)| == 2 * |ps| && Pairs(Flat(ps)) == ps
  {
    if ps != [] {
      PairsOfFlat(ps[1..]);
      assert Flat(ps)[2..] == Flat(ps[1..]);
      assert [(Flat(ps)[0], Flat(ps)[1])] == [ps[0]];
    }
  }

  /** Members with their scores, as ZADD takes them. */
  function MemberScores(ranks: seq<Rank>): (r: seq<(Bytes, int)>)
    ensures |r| == |ranks| && forall i | 0 <= i < |ranks| :: r[i] == (ranks[i].1, ranks[i].0)
  {
    seq(|ranks|, i requires 0 <= i < |ranks| => (ranks[i].1, ranks[i].0))
  }

  lemma {:induction false} ScoresOfFlat(ranks: seq<Rank>, c: ScoreText)
    requires forall i | 0 <= i < |ranks| :: c.parse(c.fmt(ranks[i].0)) == Some(ranks[i].0)
    ensures |FlatRanks(ranks, c)| == 2 * |ranks|
    ensures ScorePairs(FlatRanks(ranks, c), c) == Some(MemberScores(ranks))
  {
    if ranks != [] {
      ScoresOfFlat(ranks[1..], c);
      var f := FlatRanks(ranks, c);
      assert f[2..] == FlatRanks(ranks[1..], c) && f[0] == c.fmt(ranks[0].0) && f[1] == ranks[0].1;
      assert MemberScores(ranks) == [(ranks[0].1, ranks[0].0)] + MemberScores(ranks[1..]);
    }
  }

  lemma {:induction false} FromPairsIs<X>(ps: seq<(Bytes, X)>, m: map<Bytes, X>)
    requires forall i | 0 <= i < |ps| :: ps[i].0 in m && m[ps[i].0] == ps[i].1
    ensures forall k | k in FromPairs(ps) :: k in m && m[k] == FromPairs(ps)[k]
    ensures forall i | 0 <= i < |ps| :: ps[i].0 in FromPairs(ps)
  {
    if ps != [] {
      FromPairsIs(ps[..|ps| - 1], m);
    }
  }

  lemma {:induction false} FromPairsAt<X>(ps: seq<(Bytes, X)>, i: nat)
    requires i < |ps| && DistinctFields(ps)
    ensures ps[i].0 in FromPairs(ps) && FromPairs(ps)[ps[i].0] == ps[i].1
  {
    if i < |ps| - 1 {
      FromPairsAt(ps[..|ps| - 1], i);
    }
  }

  lemma RanksRebuild(z: map<Bytes, int>)
    ensures FromPairs(MemberScores(Sorted(Relation(z)))) == z
  {
    hide Sorted, FromPairs;
    var ranks := Sorted(Relation(z));
    SortedIsAscending(Relation(z));
    InRelation(z);
    var ps := MemberScores(ranks);
    assert forall i | 0 <= i < |ps| :: ranks[i] in ranks;
    FromPairsIs(ps, z);
    forall m | m in z ensures m in FromPairs(ps) {
      assert (z[m], m) in ranks;
      var i :| 0 <= i < |ranks| && ranks[i] == (z[m], m);
      assert ps[i].0 == m;
    }
    assert FromPairs(ps).Keys == z.Keys;
  }

  /** A first edit of an absent key creates the collection. */
  lemma FirstEdit(db: Db, k: Bytes, e: Edit, now: nat, v: Value)
    requires k !in Live(db, now) && Edited(Fresh(e), e).0 == v && !IsEmpty(v)
    ensures Apply(db, Modify(k, e), now).0 == Live(db, now)[k := Entry(v, None)]
  {
    hide Live, Edited, IsEmpty;
  }

  lemma {:induction false} SomePairs<X>(ps: seq<(Bytes, X)>)
    ensures FromPairs(ps) != map[] ==> ps != []
  {
  }

  lemma {:induction false} HSetOfPairs(ps: seq<(Bytes, Bytes)>)
    ensures Edited(Fresh(HSet(ps)), HSet(ps)).0 == Hash(FromPairs(ps))
  {
    hide FromPairs;
    assert map[] + FromPairs(ps) == FromPairs(ps);
  }

  lemma SAddOfNames(ms: seq<Bytes>)
    ensures Edited(Fresh(SAdd(ms)), SAdd(ms)).0 == Set(Names(ms)) && (Names(ms) != {} ==> ms != [])
  {
    assert {} + Names(ms) == Names(ms);
  }

  lemma HashRestores(db: Db, argv: Argv, k: Bytes, h: map<Bytes, Bytes>, now: nat, c: ScoreText)
    requires Recreates(argv, k, Hash(h), c) && h != map[] && k !in Live(db, now)
    ensures argv != [] && Execute(db, argv, now, c).0 == Live(db, now)[k := Entry(Hash(h), None)]
  {
    hide Live, Ascii, Execute, FromPairs, Apply, Dispatch, Edited, Flat, Pairs;
    var ps :| FromPairs(ps) == h && argv == [Ascii("HSET"), k] + Flat(ps);
    PairsOfFlat(ps);
    SomePairs(ps);
    assert argv[2..] == Flat(ps);
    HsetCalls(argv, now, c);
    ExecuteOne(db, argv, now, c, Modify(k, HSet(ps)));
    HSetOfPairs(ps);
    FirstEdit(db, k, HSet(ps), now, Hash(h));
  }

  lemma SetRestores(db: Db, argv: Argv, k: Bytes, s: set<Bytes>, now: nat, c: ScoreText)
    requires Recreates(argv, k, Set(s), c) && s != {} && k !in Live(db, now)
    ensures argv != [] && Execute(db, argv, now, c).0 == Live(db, now)[k := Entry(Set(s), None)]
  {
    hide Live, Ascii, Execute, Apply, Dispatch, Edited, Names;
    var ms :| Names(ms) == s && argv == [Ascii("SADD"), k] + ms;
    assert argv[2..] == ms;
    SAddOfNames(ms);
    SaddCalls(argv, now, c);
    ExecuteOne(db, argv, now, c, Modify(k, SAdd(ms)));
    FirstEdit(db, k, SAdd(ms), now, Set(s));
  }

  lemma ZSetRestores(db: Db, argv: Argv, k: Bytes, z: map<Bytes, int>, now: nat, c: ScoreText)
    requires Recreates(argv, k, ZSet(z), c) && z != map[] && k !in Live(db, now) && Printable(ZSet(z), c)
    ensures argv != [] && Execute(db, argv, now, c).0 == Live(db, now)[k := Entry(ZSet(z), None)]
  {
    hide Live, Ascii, Execute, Apply, Dispatch, Sorted, FromPairs, Relation, Printable, MemberScores, Edited, FlatRanks, ScorePairs;
    var ranks := Sorted(Relation(z));
    RanksArePrintable(z, c);
    ScoresOfFlat(ranks, c);
    assert argv[2..] == FlatRanks(ranks, c);
    ZaddCalls(argv, now, c);
    ExecuteOne(db, argv, now, c, Modify(k, ZAdd(MemberScores(ranks))));
    ZAddOfRanks(z);
    FirstEdit(db, k, ZAdd(MemberScores(ranks)), now, ZSet(z));
  }

  lemma ZAddOfRanks(z: map<Bytes, int>)
    ensures var e := ZAdd(MemberScores(Sorted(Relation(z)))); Edited(Fresh(e), e).0 == ZSet(z)
  {
    hide Sorted, Relation, FromPairs, MemberScores;
    RanksRebuild(z);
    assert map[] + FromPairs(MemberScores(Sorted(Relation(z)))) == z;
  }

  lemma RanksArePrintable(z: map<Bytes, int>, c: ScoreText)
    requires z != map[] && Printable(ZSet(z), c)
    ensures var ranks := Sorted(Relation(z));
            ranks != [] && forall i | 0 <= i < |ranks| :: c.parse(c.fmt(ranks[i].0)) == Some(ranks[i].0)
  {
    hide Sorted, Relation;
    var ranks := Sorted(Relation(z));
    SortedIsAscending(Relation(z));
    InRelation(z);
    var m :| m in z;
    assert (z[m], m) in ranks;
    forall i | 0 <= i < |ranks| ensures c.parse(c.fmt(ranks[i].0)) == Some(ranks[i].0) {
      assert ranks[i] in ranks;
    }
  }

  lemma ListRestores(db: Db, argv: Argv, k: Bytes, l: seq<Bytes>, now: nat, c: ScoreText)
    requires Recreates(argv, k, List(l), c) && l != [] && k !in Live(db, now)
    ensures argv != [] && Execute(db, argv, now, c).0 == Live(db, now)[k := Entry(List(l), None)]
  {
    hide Live, Ascii, Execute, Apply, Dispatch;
    assert argv[2..] == l;
    RpushCalls(argv, now, c);
    ExecuteOne(db, argv, now, c, Modify(k, Push(l, false)));
    assert [] + l == l;
    FirstEdit(db, k, Push(l, false), now, List(l));
  }

  lemma StringRestores(db: Db, argv: Argv, k: Bytes, s: Bytes, now: nat, c: ScoreText)
    requires Recreates(argv, k, Str(s), c) && k !in Live(db, now)
    ensures argv != [] && Execute(db, argv, now, c).0 == Live(db, now)[k := Entry(Str(s), None)]
  {
    hide Live, Ascii, Execute, Upper;
    UpperOfName("SET");
    AsciiDiffer("GET", "SET", 0);
    FastPath.ExecuteOfFast(db, argv, now, c);
  }

  /** The recreating command restores the value under its key and disturbs nothing else. */
  lemma RecreateRestores(db: Db, argv: Argv, k: Bytes, v: Value, now: nat, c: ScoreText)
    requires Recreates(argv, k, v, c) && !IsEmpty(v) && Printable(v, c) && k !in Live(db, now)
    ensures argv != [] && Execute(db, argv, now, c).0 == Live(db, now)[k := Entry(v, None)]
  {
    hide Live, Recreates, Execute, Printable;
    match v
    case Str(s) => StringRestores(db, argv, k, s, now, c);
    case List(l) => ListRestores(db, argv, k, l, now, c);
    case Hash(h) => HashRestores(db, argv, k, h, now, c);
    case Set(s) => SetRestores(db, argv, k, s, now, c);
    case ZSet(z) => ZSetRestores(db, argv, k, z, now, c);
  }

  lemma PexpireatCalls(k: Bytes, t: nat, now: nat, c: ScoreText)
    requires t <= I64_MAX
    ensures var p := Dispatch(ExpiryCommand(k, t), now, c);
            && p.ops == [Read(k, Exists)]
            && p.next([Flag(true)]).Last? && p.next([Flag(true)]).op == ExpireAt(k, Some(t))
  {
    hide Ascii, Upper, ParseI64, DecimalOf, UntimedPlan, SetCommand, SetExCommand;
    UpperOfName("PEXPIREAT");
    ParseWritten(t);
  }

  lemma {:induction false} ExistsAnswers(db: Db, k: Bytes, now: nat)
    requires k in Live(db, now)
    ensures RunOps(db, [Read(k, Exists)], now) == (Live(db, now), [Flag(true)])
  {
    hide Live;
    var ops := [Read(k, Exists)];
    assert ops[..0] == [];
    assert RunOps(db, [], now) == (db, []);
    PutSame(Live(db, now), k);
    assert [] + [Flag(true)] == [Flag(true)];
  }

  /** The expiry command sets the absolute expiry, which must fit a signed 64-bit number. */
  lemma ExpiryRestores(db: Db, k: Bytes, t: nat, now: nat, c: ScoreText)
    requires k in Live(db, now) && t <= I64_MAX
    ensures Execute(db, ExpiryCommand(k, t), now, c).0
         == Live(db, now)[k := Live(db, now)[k].(expireAt := Some(t))]
  {
    hide Dispatch, Live, RunOps;
    PexpireatCalls(k, t, now, c);
    ExistsAnswers(db, k, now);
    LiveIsLive(db, now);
  }

  // ---------- the whole dump ----------

  function DumpLen(e: Entry): nat {
    if e.expireAt.Some? then 2 else 1
  }

  /** The dumps of the listed keys, one after the other. */
  ghost predicate DumpSeq(cmds: seq<Argv>, keys: seq<Bytes>, db: Db, c: ScoreText)
    decreases |keys|
  {
    if keys == [] then cmds == []
    else
      var k := keys[|keys| - 1];
      && k in db && DumpLen(db[k]) <= |cmds|
      && var n := |cmds| - DumpLen(db[k]);
         DumpSeq(cmds[..n], keys[..|keys| - 1], db, c) && Dumps(cmds[n..], k, db[k], c)
  }

  /** A dump of `db`: every key once, in whatever order the shards and slots give. */
  ghost predicate IsDump(cmds: seq<Argv>, keys: seq<Bytes>, db: Db, c: ScoreText) {
    DumpSeq(cmds, keys, db, c) && Distinct(keys) && (forall k :: k in keys <==> k in db)
  }

  lemma {:induction false} CountKeys(keys: seq<Bytes>, all: set<Bytes>)
    requires Distinct(keys) && forall k :: k in keys <==> k in all
    ensures |keys| == |all|
  {
    if keys == [] {
      assert all == {};
    } else {
      var init, k := keys[..|keys| - 1], keys[|keys| - 1];
      assert forall j :: j in keys <==> j in init || j == k;
      CountKeys(init, all - {k});
    }
  }

  /** What the dump must not exceed: printable scores, expiries within i64, no empty collection. */
  ghost predicate Restorable(db: Db, c: ScoreText) {
    NoneEmpty(db) && forall k | k in db ::
      && Printable(db[k].value, c)
      && (db[k].expireAt.Some? ==> db[k].expireAt.value <= I64_MAX)
  }

  function Only(db: Db, keys: seq<Bytes>): Db {
    map k | k in db && k in keys :: db[k]
  }

  lemma {:induction false} DumpIsRunnable(cmds: seq<Argv>, keys: seq<Bytes>, db: Db, c: ScoreText)
    requires DumpSeq(cmds, keys, db, c)
    ensures forall i | 0 <= i < |cmds| :: cmds[i] != []
    decreases |keys|
  {
    hide Dumps;
    if keys != [] {
      var k := keys[|keys| - 1];
      var n := |cmds| - DumpLen(db[k]);
      DumpIsRunnable(cmds[..n], keys[..|keys| - 1], db, c);
      PartIsRunnable(cmds[n..], k, db[k], c);
      forall i | 0 <= i < |cmds| ensures cmds[i] != [] {
        assert i < n ==> cmds[i] == cmds[..n][i];
        assert i >= n ==> cmds[i] == cmds[n..][i - n];
      }
    }
  }

  lemma PartIsRunnable(part: seq<Argv>, k: Bytes, e: Entry, c: ScoreText)
    requires Dumps(part, k, e, c)
    ensures forall i | 0 <= i < |part| :: part[i] != []
  {
    hide Ascii, DecimalOf, Flat, FlatRanks, FromPairs, Names;
  }

  lemma SameVisible(a: Db, b: Db, t: nat)
    requires forall j :: Cell(Live(a, t), j) == Cell(Live(b, t), j)
    ensures Live(a, t) == Live(b, t)
  {
    SameCells(Live(a, t), Live(b, t));
  }

  /** Adding one entry to equal visible states. */
  lemma AddVisible(a: Db, b: Db, k: Bytes, e: Entry, t: nat)
    requires forall j | j != k :: Cell(Live(a, t), j) == Cell(Live(b, t), j)
    ensures Live(Live(a, t)[k := e], t) == Live(b[k := e], t)
  {
    var x, y := Live(a, t)[k := e], b[k := e];
    forall j ensures Cell(Live(x, t), j) == Cell(Live(y, t), j) {
      if j != k {
        assert Cell(Live(a, t), j) == Cell(Live(b, t), j);
      }
    }
    SameVisible(x, y, t);
  }

  /** Replaying the dump of one entry onto a state that does not show its key. */
  lemma RestoreEntry(a: Db, b: Db, part: seq<Argv>, k: Bytes, e: Entry, t1: nat, t2: nat, c: ScoreText)
    requires Dumps(part, k, e, c) && !IsEmpty(e.value) && Printable(e.value, c)
    requires e.expireAt.Some? ==> e.expireAt.value <= I64_MAX
    requires Live(a, t1) == Live(b, t1) && k !in b && t1 <= t2
    ensures part[0] != []
    ensures e.expireAt.None? ==> Live(Execute(a, part[0], t1, c).0, t1) == Live(b[k := e], t1)
    ensures e.expireAt.Some? ==>
              && part[1] != []
              && Live(Execute(Execute(a, part[0], t1, c).0, part[1], t2, c).0, t2) == Live(b[k := e], t2)
  {
    hide Execute, Recreates, IsEmpty, Ascii, DecimalOf, Printable;
    var v := e.value;
    RecreateRestores(a, part[0], k, v, t1, c);
    var one := Execute(a, part[0], t1, c).0;
    assert one == Live(a, t1)[k := Entry(v, None)];
    if e.expireAt.None? {
      AddVisible(a, b, k, e, t1);
    } else {
      ExpiryRestores(one, k, e.expireAt.value, t2, c);
      LiveLater(a, t1, t2);
      LiveLater(b, t1, t2);
      StillThere(a, k, v, t1, t2);
      AddVisible(one, b, k, e, t2);
    }
  }

  lemma StillThere(a: Db, k: Bytes, v: Value, t1: nat, t2: nat)
    requires t1 <= t2
    ensures var one := Live(a, t1)[k := Entry(v, None)];
            && k in Live(one, t2) && Live(one, t2)[k] == Entry(v, None)
            && forall j | j != k :: Cell(Live(one, t2), j) == Cell(Live(a, t2), j)
  {
  }

  /** Replaying the first part of a history, then the rest. */
  lemma {:induction false} RunOneMore(db: Db, cmds: seq<Argv>, n: nat, clock: nat -> nat, c: ScoreText)
    requires n < |cmds| && forall i | 0 <= i < |cmds| :: cmds[i] != []
    ensures ExecuteAll(db, Persistence.Stamp(cmds[..n + 1], clock), c)
         == Execute(ExecuteAll(db, Persistence.Stamp(cmds[..n], clock), c), cmds[n], clock(n), c).0
  {
    hide Execute;
    Persistence.StampSnoc(db, cmds[..n], cmds[n], clock, c);
    assert cmds[..n + 1] == cmds[..n] + [cmds[n]];
  }

  lemma OnlySnoc(db: Db, keys: seq<Bytes>)
    requires keys != [] && Distinct(keys) && keys[|keys| - 1] in db
    ensures var init, k := keys[..|keys| - 1], keys[|keys| - 1];
            Distinct(init) && k !in Only(db, init) && Only(db, keys) == Only(db, init)[k := db[k]]
  {
    var init, k := keys[..|keys| - 1], keys[|keys| - 1];
    assert forall j :: j in keys <==> j in init || j == k;
    assert Only(db, keys).Keys == Only(db, init)[k := db[k]].Keys;
  }

  /** One more entry of the dump. */
  lemma RestoreNext(cmds: seq<Argv>, n: nat, k: Bytes, e: Entry, b: Db, clock: nat -> nat, c: ScoreText)
    requires forall i | 0 <= i < |cmds| :: cmds[i] != []
    requires n <= |cmds| && Dumps(cmds[n..], k, e, c) && !IsEmpty(e.value) && Printable(e.value, c)
    requires e.expireAt.Some? ==> e.expireAt.value <= I64_MAX
    requires Persistence.Monotone(clock) && k !in b
    requires Persistence.Shows(b, map[], cmds[..n], clock, c, Persistence.LastTime(clock, n))
    ensures Persistence.Shows(b[k := e], map[], cmds, clock, c, Persistence.LastTime(clock, |cmds|))
  {
    hide Execute, Live, Recreates, IsEmpty, Printable;
    var a := ExecuteAll(map[], Persistence.Stamp(cmds[..n], clock), c);
    var t1, t2 := clock(n), clock(n + 1);
    LiveLater(a, Persistence.LastTime(clock, n), t1);
    LiveLater(b, Persistence.LastTime(clock, n), t1);
    RestoreEntry(a, b, cmds[n..], k, e, t1, t2, c);
    RunOneMore(map[], cmds, n, clock, c);
    if e.expireAt.Some? {
      RunOneMore(map[], cmds, n + 1, clock, c);
    }
    assert cmds[..|cmds|] == cmds;
  }

  /** Replayed from nothing, with any clock that never goes back, the listed keys are restored. */
  lemma {:induction false} RestoreKeys(cmds: seq<Argv>, keys: seq<Bytes>, db: Db, clock: nat -> nat, c: ScoreText)
    requires DumpSeq(cmds, keys, db, c) && Distinct(keys) && Restorable(db, c) && Persistence.Monotone(clock)
    ensures Persistence.Shows(Only(db, keys), map[], cmds, clock, c, Persistence.LastTime(clock, |cmds|))
    decreases |keys|
  {
    hide Persistence.Shows, Dumps, IsEmpty, Printable, Only, Distinct;
    if keys == [] {
      NothingToShow(db, clock, c);
    } else {
      DumpIsRunnable(cmds, keys, db, c);
      var init, k := keys[..|keys| - 1], keys[|keys| - 1];
      var n := |cmds| - DumpLen(db[k]);
      OnlySnoc(db, keys);
      RestoreKeys(cmds[..n], init, db, clock, c);
      RestoreNext(cmds, n, k, db[k], Only(db, init), clock, c);
    }
  }

  lemma NothingToShow(db: Db, clock: nat -> nat, c: ScoreText)
    ensures Persistence.Shows(Only(db, []), map[], [], clock, c, 0)
  {
    assert Only(db, []) == map[];
    Persistence.ShowsStart(map[], clock, c);
  }

  /**
   * Snapshot round trip. The dump taken at `now`, replayed into an empty unbounded store, shows at
   * every later time what the original shows then: keys, values, list orders, absolute expiries.
   */
  lemma {:induction false} SnapshotRoundTrip(db: Db, now: nat, cmds: seq<Argv>, keys: seq<Bytes>,
                          clock: nat -> nat, c: ScoreText, later: nat)
    requires IsDump(cmds, keys, Live(db, now), c) && Restorable(Live(db, now), c)
    requires Persistence.Monotone(clock) && now <= later && Persistence.LastTime(clock, |cmds|) <= later
    ensures Runnable(Persistence.Stamp(cmds, clock))
    ensures Live(ExecuteAll(map[], Persistence.Stamp(cmds, clock), c), later) == Live(db, later)
  {
    hide Execute, Live, DumpSeq, Restorable;
    var image := Live(db, now);
    RestoreKeys(cmds, keys, image, clock, c);
    assert Only(image, keys) == image;
    LiveLater(image, Persistence.LastTime(clock, |cmds|), later);
    LiveLater(ExecuteAll(map[], Persistence.Stamp(cmds, clock), c), Persistence.LastTime(clock, |cmds|), later);
    LiveLater(db, now, later);
  }

  // ---------- writing the dump ----------

  lemma {:induction false} FlatSnoc(ps: seq<(Bytes, Bytes)>, p: (Bytes, Bytes))
    ensures Flat(ps + [p]) == Flat(ps) + [p.0, p.1]
  {
    if ps == [] {
      assert (ps + [p])[1..] == [];
      assert Flat(ps + [p]) == [p.0, p.1] + Flat([]);
    } else {
      FlatSnoc(ps[1..], p);
      assert (ps + [p])[1..] == ps[1..] + [p];
      assert Flat(ps + [p]) == [ps[0].0, ps[0].1] + (Flat(ps[1..]) + [p.0, p.1]);
    }
  }

  /** The fields written so far, and the ones left. */
  ghost predicate Written(args: seq<Bytes>, ps: seq<(Bytes, Bytes)>, left: map<Bytes, Bytes>, h: map<Bytes, Bytes>) {
    var done := FromPairs(ps);
    && args == Flat(ps) && SubBindings(done, h) && left == h - done.Keys
    && DistinctFields(ps) && forall i | 0 <= i < |ps| :: ps[i].0 in done
  }

  lemma {:induction false} NothingWritten(h: map<Bytes, Bytes>)
    ensures Written([], [], h, h)
  {
    assert h - FromPairs<Bytes>([]).Keys == h;
  }

  lemma {:induction false} WrittenNext(args: seq<Bytes>, ps: seq<(Bytes, Bytes)>, left: map<Bytes, Bytes>, h: map<Bytes, Bytes>, f: Bytes)
    requires Written(args, ps, left, h) && f in left
    ensures Written(args + [f, left[f]], ps + [(f, left[f])], left - {f}, h) && |left - {f}| < |left|
  {
    hide FromPairs, Flat, SubBindings;
    FlatSnoc(ps, (f, left[f]));
    FromPairsSnoc(ps, (f, left[f]));
    MoveOver(h, FromPairs(ps), f);
  }

  lemma {:induction false} AllWritten(args: seq<Bytes>, ps: seq<(Bytes, Bytes)>, h: map<Bytes, Bytes>)
    requires Written(args, ps, map[], h)
    ensures args == Flat(ps) && FromPairs(ps) == h && DistinctFields(ps)
  {
    hide FromPairs, Flat, SubBindings;
    AllOver(h, FromPairs(ps));
  }

  /** Fields and values by turns, in the order the table yields them. */
  method HashArgs(h: map<Bytes, Bytes>) returns (args: seq<Bytes>, ghost ps: seq<(Bytes, Bytes)>)
    ensures args == Flat(ps) && FromPairs(ps) == h && DistinctFields(ps)
    ensures exists qs :: args == Flat(qs) && FromPairs(qs) == h && DistinctFields(qs)
  {
    hide FromPairs, Flat, Written;
    args, ps := [], [];
    var left := h;
    NothingWritten(h);
    while left != map[]
      invariant Written(args, ps, left, h)
      decreases |left|
    {
      var f :| f in left;
      WrittenNext(args, ps, left, h, f);
      args := args + [f, left[f]];
      ps := ps + [(f, left[f])];
      left := left - {f};
    }
    AllWritten(args, ps, h);
  }

  method SetMembers(s: set<Bytes>) returns (args: seq<Bytes>)
    ensures Names(args) == s && Distinct(args)
  {
    args := [];
    var left := s;
    while left != {}
      invariant left <= s && Names(args) == s - left && Distinct(args)
      decreases |left|
    {
      var m :| m in left;
      assert Names(args + [m]) == Names(args) + {m};
      args := args + [m];
      left := left - {m};
    }
  }

  lemma {:induction false} FlatRanksSnoc(ranks: seq<Rank>, r: Rank, c: ScoreText)
    ensures FlatRanks(ranks + [r], c) == FlatRanks(ranks, c) + [c.fmt(r.0), r.1]
  {
    if ranks == [] {
      assert (ranks + [r])[1..] == [];
      assert FlatRanks(ranks + [r], c) == [c.fmt(r.0), r.1] + FlatRanks([], c);
    } else {
      FlatRanksSnoc(ranks[1..], r, c);
      assert (ranks + [r])[1..] == ranks[1..] + [r];
      assert FlatRanks(ranks + [r], c) == [c.fmt(ranks[0].0), ranks[0].1] + (FlatRanks(ranks[1..], c) + [c.fmt(r.0), r.1]);
    }
  }

  method RankArgs(ranks: seq<Rank>, c: ScoreText) returns (args: seq<Bytes>)
    ensures args == FlatRanks(ranks, c)
  {
    args := [];
    for i := 0 to |ranks|
      invariant args == FlatRanks(ranks[..i], c)
    {
      FlatRanksSnoc(ranks[..i], ranks[i], c);
      assert ranks[..i + 1] == ranks[..i] + [ranks[i]];
      args := args + [c.fmt(ranks[i].0), ranks[i].1];
    }
    assert ranks[..|ranks|] == ranks;
  }

  /** `encode_recreate`: appends the command that recreates the value at the key. */
  method EncodeRecreate(out: Bytes, k: Bytes, v: Value, c: ScoreText) returns (r: Bytes, argv: Argv)
    ensures Recreates(argv, k, v, c) && r == out + Encode(argv)
  {
    hide Encode, Flat, FlatRanks, FromPairs, Names, Ascii, Sorted, Relation;
    match v {
      case Str(s) => argv := [Ascii("SET"), k, s];
      case List(l) => argv := [Ascii("RPUSH"), k] + l;
      case Hash(h) =>
        var args, ps := HashArgs(h);
        argv := [Ascii("HSET"), k] + args;
      case Set(s) =>
        var args := SetMembers(s);
        argv := [Ascii("SADD"), k] + args;
      case ZSet(z) =>
        var args := RankArgs(Sorted(Relation(z)), c);
        argv := [Ascii("ZADD"), k] + args;
    }
    r := EncodeCommand(out, argv);
  }

  lemma {:induction false} DumpSnoc(cmds: seq<Argv>, keys: seq<Bytes>, db: Db, c: ScoreText, part: seq<Argv>, k: Bytes)
    requires DumpSeq(cmds, keys, db, c) && k in db && Dumps(part, k, db[k], c)
    ensures DumpSeq(cmds + part, keys + [k], db, c)
  {
    hide Recreates, Ascii, DecimalOf;
    assert (keys + [k])[..|keys|] == keys;
    assert (cmds + part)[..|cmds|] == cmds && (cmds + part)[|cmds|..] == part;
  }

  /** One entry: its recreating command and, if it expires, its absolute expiry. */
  method DumpEntry(out: Bytes, k: Bytes, e: Entry, c: ScoreText) returns (r: Bytes, ghost part: seq<Argv>)
    ensures Dumps(part, k, e, c) && r == out + EncodeAll(part)
    ensures out <= r && exists p :: Dumps(p, k, e, c) && r[|out|..] == EncodeAll(p)
  {
    hide Recreates, Encode, Ascii, DecimalOf;
    var argv;
    r, argv := EncodeRecreate(out, k, e.value, c);
    part := [argv];
    assert part[1..] == [] && EncodeAll(part) == Encode(argv) + EncodeAll([]);
    if e.expireAt.Some? {
      var x := ExpiryCommand(k, e.expireAt.value);
      r := EncodeCommand(r, x);
      EncodeAllAppend(part, [x]);
      assert [x][1..] == [] && EncodeAll([x]) == Encode(x) + EncodeAll([]);
      part := part + [x];
    }
    assert r[|out|..] == EncodeAll(part);
  }

  /** A dump in progress: what has been written covers exactly the keys done. */
  ghost predicate Dumped(out: Bytes, cmds: seq<Argv>, keys: seq<Bytes>, done: set<Bytes>, db: Db, c: ScoreText) {
    && out == EncodeAll(cmds) && DumpSeq(cmds, keys, db, c) && Distinct(keys)
    && forall k :: k in keys <==> k in done
  }

  lemma {:induction false} DumpedNext(out: Bytes, cmds: seq<Argv>, keys: seq<Bytes>, done: set<Bytes>, db: Db, c: ScoreText,
                   k: Bytes, part: seq<Argv>)
    requires Dumped(out, cmds, keys, done, db, c) && k in db && k !in done && Dumps(part, k, db[k], c)
    ensures Dumped(out + EncodeAll(part), cmds + part, keys + [k], done + {k}, db, c)
  {
    hide Dumps, Encode, DumpSeq;
    DumpSnoc(cmds, keys, db, c, part, k);
    EncodeAllAppend(cmds, part);
  }

  /** One shard: every live entry, in the order the table yields them. */
  method DumpShard(entries: Db, now: nat, c: ScoreText, sofar: Bytes,
                   ghost cmds0: seq<Argv>, ghost keys0: seq<Bytes>, ghost done0: set<Bytes>, ghost db: Db)
    returns (out: Bytes, ghost cmds: seq<Argv>, ghost keys: seq<Bytes>)
    requires Dumped(sofar, cmds0, keys0, done0, db, c) && done0 !! entries.Keys
    requires forall k | k in Live(entries, now) :: k in db && db[k] == entries[k]
    ensures Dumped(out, cmds, keys, done0 + Live(entries, now).Keys, db, c)
  {
    hide Dumped, Dumps, EncodeAll;
    out, cmds, keys := sofar, cmds0, keys0;
    var left := entries.Keys;
    ghost var done := done0;
    while left != {}
      invariant left <= entries.Keys && done == done0 + (Live(entries, now).Keys - left)
      invariant Dumped(out, cmds, keys, done, db, c)
      decreases |left|
    {
      var k :| k in left;
      if !Expired(entries[k], now) {
        ghost var part;
        ghost var before := out;
        out, part := DumpEntry(out, k, entries[k], c);
        DumpedNext(before, cmds, keys, done, db, c, k, part);
        cmds, keys := cmds + part, keys + [k];
      }
      done := done0 + (Live(entries, now).Keys - (left - {k}));
      assert !Expired(entries[k], now) ==> done == done0 + (Live(entries, now).Keys - left) + {k};
      assert Expired(entries[k], now) ==> done == done0 + (Live(entries, now).Keys - left);
      left := left - {k};
    }
    assert Live(entries, now).Keys - left == Live(entries, now).Keys;
  }

  /** The keys of the first `n` shards. */
  ghost function InShards(db: Db, route: Bytes -> nat, count: nat, n: nat): set<Bytes>
    requires count > 0
  {
    set k | k in db && Home(route, k, count) < n
  }

  /** The bytes of some dump of `db`. */
  ghost predicate IsDumpFile(out: Bytes, db: Db, c: ScoreText) {
    exists cmds, keys :: IsDump(cmds, keys, db, c) && out == EncodeAll(cmds)
  }

  /**
   * `dump_commands`: the encoding of a dump of everything visible at `now`. The store's own
   * invariant makes what it dumps free of empty collections.
   */
  method DumpCommands(st: Store, now: nat, c: ScoreText)
    returns (out: Bytes, ghost cmds: seq<Argv>, ghost keys: seq<Bytes>)
    requires st.Valid()
    ensures out == EncodeAll(cmds) && IsDump(cmds, keys, Live(st.Contents(), now), c)
    ensures IsDumpFile(out, Live(st.Contents(), now), c)
    ensures NoneEmpty(Live(st.Contents(), now))
  {
    hide Dumped, Shard.Valid, EncodeAll, Home;
    out, cmds, keys := [], [], [];
    ghost var db := Live(st.Contents(), now);
    ghost var n := |st.shards|;
    StartDump(db, c);
    assert InShards(db, st.router, n, 0) == {};
    for i := 0 to |st.shards|
      invariant Dumped(out, cmds, keys, InShards(db, st.router, n, i), db, c)
    {
      var entries := st.shards[i].entries;
      assert entries == st.Dbs()[i];
      assert InShards(db, st.router, n, i + 1) == InShards(db, st.router, n, i) + Live(entries, now).Keys;
      out, cmds, keys := DumpShard(entries, now, c, out, cmds, keys, InShards(db, st.router, n, i), db);
    }
    assert InShards(db, st.router, n, n) == db.Keys;
    EndDump(out, cmds, keys, db, c);
    ContentsNoneEmpty(st, now);
  }

  lemma StartDump(db: Db, c: ScoreText)
    ensures Dumped([], [], [], {}, db, c)
  {
  }

  lemma {:induction false} EndDump(out: Bytes, cmds: seq<Argv>, keys: seq<Bytes>, db: Db, c: ScoreText)
    requires Dumped(out, cmds, keys, db.Keys, db, c)
    ensures out == EncodeAll(cmds) && IsDump(cmds, keys, db, c)
  {
  }

  lemma ContentsNoneEmpty(st: Store, now: nat)
    requires st.Valid()
    ensures NoneEmpty(Live(st.Contents(), now))
  {
    hide Home, IsEmpty, S3Fifo.Valid, TotalCost;
    forall k | k in st.Contents() ensures !IsEmpty(st.Contents()[k].value) {
      var i := Home(st.router, k, |st.shards|);
      assert st.Dbs()[i] == st.shards[i].entries && NoneEmpty(st.shards[i].entries);
    }
  }
}
