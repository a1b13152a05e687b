/** Which datasets a dump can carry: a condition on the dataset, and what is restored without it. */
module SnapshotSizes {
  import opened Basics
  import opened Decimal
  import opened Resp
  import opened Frames
  import opened Values
  import opened Keyspace
  import opened Commands
  import opened Persistence
  import opened Snapshot
  import opened ZSets
  import Streams

  /** The recreating command of the entry stays within the parser's two limits. */
  ghost predicate EntryFits(k: Bytes, v: Value, c: ScoreText) {
    && Short(k)
    && match v
       case Str(s) => Short(s)
       case List(l) => |l| + 2 <= MAX_ARRAY_LEN && forall i | 0 <= i < |l| :: Short(l[i])
       case Hash(h) => 2 * |h| + 2 <= MAX_ARRAY_LEN && forall f | f in h :: Short(f) && Short(h[f])
       case Set(s) => |s| + 2 <= MAX_ARRAY_LEN && forall m | m in s :: Short(m)
       case ZSet(z) => 2 * |z| + 2 <= MAX_ARRAY_LEN && forall m | m in z :: Short(m) && Short(c.fmt(z[m]))
  }

  ghost predicate DumpFits(db: Db, c: ScoreText) {
    forall k | k in db :: EntryFits(k, db[k].value, c)
  }

  /** Stored expiries are unsigned 64-bit numbers. */
  predicate MachineTimes(db: Db) {
    forall k | k in db && db[k].expireAt.Some? :: db[k].expireAt.value < U64_LIMIT
  }

  // ---------- one command ----------

  predicate AllShort(args: seq<Bytes>) {
    forall i | 0 <= i < |args| :: Short(args[i])
  }

  lemma {:induction false} FitsWithHead(name: string, k: Bytes, args: seq<Bytes>)
    requires |name| <= 9
    ensures Fits([Ascii(name), k] + args) <==> |args| + 2 <= MAX_ARRAY_LEN && Short(k) && AllShort(args)
  {
    var argv := [Ascii(name), k] + args;
    assert argv[0] == Ascii(name) && argv[1] == k && forall i | 0 <= i < |args| :: argv[i + 2] == args[i];
    if |args| + 2 <= MAX_ARRAY_LEN && Short(k) && AllShort(args) {
      forall i | 0 <= i < |argv| ensures |argv[i]| <= MAX_BULK_LEN {
        assert i >= 2 ==> argv[i] == args[i - 2];
      }
    }
    if Fits(argv) {
      forall i | 0 <= i < |args| ensures Short(args[i]) {
        assert argv[i + 2] == args[i];
      }
    }
  }

  lemma {:induction false} FlatShort(ps: seq<(Bytes, Bytes)>)
    ensures |Flat(ps)| == 2 * |ps|
    ensures AllShort(Flat(ps)) <==> forall i | 0 <= i < |ps| :: Short(ps[i].0) && Short(ps[i].1)
  {
    if ps != [] {
      FlatShort(ps[1..]);
      var head := [ps[0].0, ps[0].1];
      ShortAppend(head, Flat(ps[1..]));
      assert AllShort(head) <==> Short(ps[0].0) && Short(ps[0].1) by {
        assert head[0] == ps[0].0 && head[1] == ps[0].1;
      }
      assert forall i | 0 <= i < |ps[1..]| :: ps[1..][i] == ps[i + 1];
      assert (forall i | 0 <= i < |ps| :: Short(ps[i].0) && Short(ps[i].1)) <==>
             Short(ps[0].0) && Short(ps[0].1) && forall i | 0 <= i < |ps[1..]| :: Short(ps[1..][i].0) && Short(ps[1..][i].1) by {
        if Short(ps[0].0) && Short(ps[0].1) && forall i | 0 <= i < |ps[1..]| :: Short(ps[1..][i].0) && Short(ps[1..][i].1) {
          forall i | 0 <= i < |ps| ensures Short(ps[i].0) && Short(ps[i].1) {
            assert i > 0 ==> ps[i] == ps[1..][i - 1];
          }
        }
      }
    }
  }

  lemma {:induction false} ShortAppend(a: seq<Bytes>, b: seq<Bytes>)
    ensures AllShort(a + b) <==> AllShort(a) && AllShort(b)
  {
    if AllShort(a + b) {
      forall i | 0 <= i < |a| ensures Short(a[i]) { assert (a + b)[i] == a[i]; }
      forall i | 0 <= i < |b| ensures Short(b[i]) { assert (a + b)[|a| + i] == b[i]; }
    }
  }

  lemma {:induction false} PairOf(ps: seq<(Bytes, Bytes)>, f: Bytes) returns (i: nat)
    requires f in FromPairs(ps)
    ensures i < |ps| && ps[i] == (f, FromPairs(ps)[f])
  {
    var n := |ps| - 1;
    if ps[n].0 == f {
      i := n;
    } else {
      i := PairOf(ps[..n], f);
    }
  }

  lemma {:induction false} PairCount(ps: seq<(Bytes, Bytes)>)
    requires DistinctFields(ps)
    ensures |FromPairs(ps)| == |ps|
  {
    if ps != [] {
      var n := |ps| - 1;
      var m, k := FromPairs(ps[..n]), ps[n].0;
      PairCount(ps[..n]);
      if k in m {
        var i := PairOf(ps[..n], k);
        assert false;
      }
      assert FromPairs(ps).Keys == m.Keys + {k};
      assert |FromPairs(ps)| == |FromPairs(ps).Keys| && |m| == |m.Keys|;
    }
  }

  lemma {:induction false} DistinctNames(ms: seq<Bytes>)
    requires Distinct(ms)
    ensures |Names(ms)| == |ms|
  {
    if ms != [] {
      var n := |ms| - 1;
      DistinctNames(ms[..n]);
      assert Names(ms) == Names(ms[..n]) + {ms[n]} by {
        assert ms == ms[..n] + [ms[n]];
      }
      assert ms[n] !in Names(ms[..n]);
    }
  }

  lemma {:induction false} FlatRanksShort(ranks: seq<Rank>, c: ScoreText)
    ensures |FlatRanks(ranks, c)| == 2 * |ranks|
    ensures AllShort(FlatRanks(ranks, c)) <==> forall i | 0 <= i < |ranks| :: Short(ranks[i].1) && Short(c.fmt(ranks[i].0))
  {
    if ranks != [] {
      FlatRanksShort(ranks[1..], c);
      var head := [c.fmt(ranks[0].0), ranks[0].1];
      ShortAppend(head, FlatRanks(ranks[1..], c));
      assert AllShort(head) <==> Short(ranks[0].1) && Short(c.fmt(ranks[0].0)) by {
        assert head[0] == c.fmt(ranks[0].0) && head[1] == ranks[0].1;
      }
      forall i | 0 <= i < |ranks| ensures i > 0 ==> ranks[i] == ranks[1..][i - 1] {
      }
      assert forall i | 0 <= i < |ranks[1..]| :: ranks[1..][i] == ranks[i + 1];
    }
  }

  lemma HashFits(argv: Argv, k: Bytes, h: map<Bytes, Bytes>, c: ScoreText)
    requires Recreates(argv, k, Hash(h), c)
    ensures Fits(argv) <==> EntryFits(k, Hash(h), c)
  {
    hide Fits, Flat, FromPairs, AllShort, Short, Ascii;
    var ps: seq<(Bytes, Bytes)> :| FromPairs(ps) == h && DistinctFields(ps) && argv == [Ascii("HSET"), k] + Flat(ps);
    PairCount(ps);
    FlatShort(ps);
    FitsWithHead("HSET", k, Flat(ps));
    if forall i | 0 <= i < |ps| :: Short(ps[i].0) && Short(ps[i].1) {
      forall f | f in h ensures Short(f) && Short(h[f]) {
        var i := PairOf(ps, f);
      }
    }
    forall i | 0 <= i < |ps| ensures ps[i].0 in h && h[ps[i].0] == ps[i].1 {
      FromPairsAt(ps, i);
    }
  }

  lemma SetFits(argv: Argv, k: Bytes, s: set<Bytes>, c: ScoreText)
    requires Recreates(argv, k, Set(s), c)
    ensures Fits(argv) <==> EntryFits(k, Set(s), c)
  {
    hide Fits, Short, Ascii;
    var ms :| Names(ms) == s && Distinct(ms) && argv == [Ascii("SADD"), k] + ms;
    DistinctNames(ms);
    FitsWithHead("SADD", k, ms);
    if AllShort(ms) {
      forall m | m in s ensures Short(m) {
        assert m in Names(ms);
      }
    } else {
      var i :| 0 <= i < |ms| && !Short(ms[i]);
      assert ms[i] in Names(ms);
    }
  }

  lemma ZSetFits(argv: Argv, k: Bytes, z: map<Bytes, int>, c: ScoreText)
    requires Recreates(argv, k, ZSet(z), c)
    ensures Fits(argv) <==> EntryFits(k, ZSet(z), c)
  {
    hide Fits, FlatRanks, Sorted, Relation, AllShort, Short, Ascii;
    var ranks := Sorted(Relation(z));
    SortedIsAscending(Relation(z));
    InRelation(z);
    RelationSize(z);
    FlatRanksShort(ranks, c);
    FitsWithHead("ZADD", k, FlatRanks(ranks, c));
    if forall i | 0 <= i < |ranks| :: Short(ranks[i].1) && Short(c.fmt(ranks[i].0)) {
      forall m | m in z ensures Short(m) && Short(c.fmt(z[m])) {
        assert (z[m], m) in ranks;
      }
    } else {
      var i :| 0 <= i < |ranks| && !(Short(ranks[i].1) && Short(c.fmt(ranks[i].0)));
      assert ranks[i] in ranks;
    }
  }

  lemma {:induction false} RelationSize(z: map<Bytes, int>)
    ensures |Relation(z)| == |z|
    decreases |z|
  {
    if z != map[] {
      var m :| m in z;
      var rest := z - {m};
      assert rest.Keys == z.Keys - {m} && |rest| == |rest.Keys| && |z| == |z.Keys|;
      RelationSize(rest);
      InRelation(z);
      InRelation(rest);
      forall p: Rank ensures p in Relation(z) <==> p in Relation(rest) + {(z[m], m)} {
      }
      assert Relation(z) == Relation(rest) + {(z[m], m)};
    } else {
      assert Relation(z) == {};
    }
  }

  lemma StringFits(argv: Argv, k: Bytes, v: Bytes, c: ScoreText)
    requires Recreates(argv, k, Str(v), c)
    ensures Fits(argv) <==> EntryFits(k, Str(v), c)
  {
    hide Ascii;
    assert argv == [Ascii("SET"), k] + [v];
    FitsWithHead("SET", k, [v]);
    assert [v][0] == v;
  }

  /** The recreating command of an entry parses back if and only if the entry fits. */
  lemma RecreateFits(argv: Argv, k: Bytes, v: Value, c: ScoreText)
    requires Recreates(argv, k, v, c)
    ensures Fits(argv) <==> EntryFits(k, v, c)
  {
    hide Fits, EntryFits, Recreates;
    match v
    case Str(x) => StringFits(argv, k, x, c);
    case List(l) => ListFits(argv, k, l, c);
    case Hash(h) => HashFits(argv, k, h, c);
    case Set(m) => SetFits(argv, k, m, c);
    case ZSet(z) => ZSetFits(argv, k, z, c);
  }

  lemma ListFits(argv: Argv, k: Bytes, l: seq<Bytes>, c: ScoreText)
    requires Recreates(argv, k, List(l), c)
    ensures Fits(argv) <==> EntryFits(k, List(l), c)
  {
    hide Ascii, Fits;
    FitsWithHead("RPUSH", k, l);
  }

  // ---------- the whole dump ----------

  lemma {:induction false} DigitsFew(n: nat, d: nat)
    requires n < Pow10(d)
    ensures |Digits(n)| <= if d == 0 then 1 else d
    decreases d
  {
    if d > 1 && n >= 10 {
      DigitsFew(n / 10, d - 1);
    }
  }

  lemma ExpiryFits(k: Bytes, t: nat)
    requires Short(k) && t < U64_LIMIT
    ensures Fits(ExpiryCommand(k, t))
  {
    hide Ascii, Digits, Pow10;
    TwentyDigitsSuffice();
    DigitsFew(t, 20);
    assert ExpiryCommand(k, t) == [Ascii("PEXPIREAT"), k] + [DecimalOf(t)];
    FitsWithHead("PEXPIREAT", k, [DecimalOf(t)]);
  }

  /** How far a dump is readable: up to the first entry that does not fit. */
  ghost predicate ReadableTo(cmds: seq<Argv>, keys: seq<Bytes>, db: Db, c: ScoreText, n: nat, i: nat) {
    && n <= |cmds| && i <= |keys| && Loggable(cmds[..n])
    && DumpSeq(cmds[..n], keys[..i], db, c)
    && (forall j | 0 <= j < i :: keys[j] in db && EntryFits(keys[j], db[keys[j]].value, c))
    && (i == |keys| <==> n == |cmds|)
    && (n < |cmds| ==> !Fits(cmds[n]) && keys[i] in db && !EntryFits(keys[i], db[keys[i]].value, c))
  }

  lemma {:induction false} FindReadable(cmds: seq<Argv>, keys: seq<Bytes>, db: Db, c: ScoreText) returns (n: nat, i: nat)
    requires DumpSeq(cmds, keys, db, c) && MachineTimes(db)
    ensures ReadableTo(cmds, keys, db, c, n, i)
    decreases |keys|
  {
    hide EntryFits, Fits, Recreates, MachineTimes;
    if keys == [] {
      n, i := 0, 0;
      assert cmds[..0] == [];
    } else {
      var init, k := keys[..|keys| - 1], keys[|keys| - 1];
      var m := |cmds| - DumpLen(db[k]);
      n, i := FindReadable(cmds[..m], init, db, c);
      if n < m {
        Within(cmds, keys, db, c, m, n, i);
      } else {
        EntryReadable(cmds, keys, db, c, m);
        if EntryFits(k, db[k].value, c) {
          n, i := |cmds|, |keys|;
          assert cmds[..n] == cmds && keys[..i] == keys;
        }
      }
    }
  }

  lemma Within(cmds: seq<Argv>, keys: seq<Bytes>, db: Db, c: ScoreText, m: nat, n: nat, i: nat)
    requires keys != [] && n < m < |cmds| && ReadableTo(cmds[..m], keys[..|keys| - 1], db, c, n, i)
    ensures ReadableTo(cmds, keys, db, c, n, i)
  {
    hide EntryFits, Fits, DumpSeq;
    assert cmds[..m][..n] == cmds[..n] && keys[..|keys| - 1][..i] == keys[..i];
  }

  lemma {:induction false} EntryReadable(cmds: seq<Argv>, keys: seq<Bytes>, db: Db, c: ScoreText, m: nat)
    requires DumpSeq(cmds, keys, db, c) && MachineTimes(db) && keys != []
    requires m == |cmds| - DumpLen(db[keys[|keys| - 1]]) && ReadableTo(cmds[..m], keys[..|keys| - 1], db, c, m, |keys| - 1)
    ensures m < |cmds|
    ensures var k := keys[|keys| - 1];
            if EntryFits(k, db[k].value, c) then ReadableTo(cmds, keys, db, c, |cmds|, |keys|)
            else ReadableTo(cmds, keys, db, c, m, |keys| - 1)
  {
    hide EntryFits, Fits, Recreates, Ascii, DecimalOf;
    var k := keys[|keys| - 1];
    assert cmds[..m][..m] == cmds[..m] && keys[..|keys| - 1][..|keys| - 1] == keys[..|keys| - 1];
    assert cmds[m..][0] == cmds[m];
    RecreateFits(cmds[m], k, db[k].value, c);
    DumpIsRunnable(cmds, keys, db, c);
    if EntryFits(k, db[k].value, c) {
      assert cmds[..|cmds|] == cmds && keys[..|keys|] == keys;
      if db[k].expireAt.Some? {
        assert cmds[m..][1] == cmds[m + 1];
        KeyFits(k, db[k].value, c);
        ExpiryFits(k, db[k].expireAt.value);
      }
    }
  }

  lemma KeyFits(k: Bytes, v: Value, c: ScoreText)
    requires EntryFits(k, v, c)
    ensures Short(k)
  {
  }

  /** A dump of the dataset can be read back whole if and only if every entry fits. */
  lemma DumpFitsIff(cmds: seq<Argv>, keys: seq<Bytes>, db: Db, c: ScoreText)
    requires IsDump(cmds, keys, db, c) && MachineTimes(db)
    ensures Loggable(cmds) <==> DumpFits(db, c)
  {
    hide EntryFits, Fits, DumpSeq, MachineTimes;
    var n, i := FindReadable(cmds, keys, db, c);
    if n == |cmds| {
      assert cmds[..n] == cmds;
      forall k | k in db ensures EntryFits(k, db[k].value, c) {
        assert k in keys;
      }
    } else {
      assert !Fits(cmds[n]) && !EntryFits(keys[i], db[keys[i]].value, c);
    }
  }

  /** Parsing a log stops, with an error, at the first command that does not fit. */
  lemma {:induction false} DrainStops(cmds: seq<Argv>, n: nat)
    requires n <= |cmds| && Loggable(cmds[..n]) && (n < |cmds| ==> !Fits(cmds[n]))
    ensures var d := Streams.Drain(EncodeAll(cmds)); d.cmds == cmds[..n] && (d.error.Some? <==> n < |cmds|)
    decreases n
  {
    hide Encode, ParseFrame, Fits;
    if n == |cmds| {
      assert cmds[..n] == cmds;
      WholeLog(cmds);
    } else if n == 0 {
      FrameRoundTrip(cmds[0], EncodeAll(cmds[1..]));
    } else {
      var e, rest := Encode(cmds[0]), EncodeAll(cmds[1..]);
      assert cmds[..n][0] == cmds[0];
      FrameRoundTrip(cmds[0], rest);
      assert (e + rest)[|e|..] == rest;
      assert cmds[1..][..n - 1] == cmds[..n][1..];
      DrainStops(cmds[1..], n - 1);
      assert cmds[..n] == [cmds[0]] + cmds[1..][..n - 1];
    }
  }
}
