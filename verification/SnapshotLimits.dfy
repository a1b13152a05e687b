/** Where snapshots stop being faithful, exactly: unprintable scores, oversized expiries and oversized entries. */
module SnapshotLimits {
  import opened Basics
  import opened Decimal
  import opened Resp
  import opened Values
  import opened Keyspace
  import opened Commands
  import opened CommandLog
  import opened Snapshot
  import opened ZSets
  import Frames
  import Persistence
  import Recovery
  import SnapshotSizes
  import Stores
  import Streams

  lemma {:induction false} ScoresReparsed(ranks: seq<Rank>, c: ScoreText)
    ensures |FlatRanks(ranks, c)| == 2 * |ranks|
    ensures var p := ScorePairs(FlatRanks(ranks, c), c);
            p.Some? ==> && |p.value| == |ranks|
                        && forall i | 0 <= i < |ranks| ::
                             p.value[i].0 == ranks[i].1 && c.parse(c.fmt(ranks[i].0)) == Some(p.value[i].1)
  {
    if ranks != [] {
      ScoresReparsed(ranks[1..], c);
      var f := FlatRanks(ranks, c);
      assert f[2..] == FlatRanks(ranks[1..], c) && f[0] == c.fmt(ranks[0].0) && f[1] == ranks[0].1;
    }
  }

  lemma MembersAreDistinct(z: map<Bytes, int>, x: nat, y: nat)
    requires x < y < |Sorted(Relation(z))|
    ensures Sorted(Relation(z))[x].1 != Sorted(Relation(z))[y].1
  {
    hide Sorted, Relation, Before;
    var ranks := Sorted(Relation(z));
    SortedIsAscending(Relation(z));
    InRelation(z);
    assert ranks[x] in ranks && ranks[y] in ranks && Before(ranks[x], ranks[y]);
    BeforeTotal(ranks[x], ranks[x]);
  }

  /** If every score parses to something but some parse to something else, the sorted set differs. */
  lemma {:induction false} ReparsedDiffers(z: map<Bytes, int>, ps: seq<(Bytes, int)>, m: Bytes, c: ScoreText)
    requires m in z && c.parse(c.fmt(z[m])) != Some(z[m])
    requires ScorePairs(FlatRanks(Sorted(Relation(z)), c), c) == Some(ps)
    ensures map[] + FromPairs(ps) != z
  {
    hide Sorted, Relation, FromPairs, FlatRanks, ScorePairs;
    var ranks := Sorted(Relation(z));
    SortedIsAscending(Relation(z));
    InRelation(z);
    ScoresReparsed(ranks, c);
    assert (z[m], m) in ranks;
    var i :| 0 <= i < |ranks| && ranks[i] == (z[m], m);
    forall x, y | 0 <= x < y < |ps| ensures ps[x].0 != ps[y].0 {
      MembersAreDistinct(z, x, y);
    }
    FromPairsAt(ps, i);
    assert (map[] + FromPairs(ps))[m] == ps[i].1;
  }

  lemma {:induction false} UnparsedIsRefused(argv: Argv, now: nat, c: ScoreText, got: seq<Answer>)
    requires |argv| >= 4 && |argv| % 2 == 0 && argv[0] == Ascii("ZADD") && ScorePairs(argv[2..], c).None?
    ensures var p := Dispatch(argv, now, c); p.ops == [] && p.next(got).Stop?
  {
    hide Ascii, Upper, TimedPlan, ServerPlan, StringPlan, CounterPlan, ListPlan, KeyPlan, ScorePairs;
    UpperOfName("ZADD");
    EarlierPlansAreNone(argv, "ZADD", now);
    CollectionNames();
  }

  /** The key does not show this value. */
  ghost predicate Lacks(db: Db, k: Bytes, v: Value, now: nat) {
    k in Live(db, now) ==> db[k].value != v
  }

  /** No other key is touched. */
  ghost predicate Elsewhere(before: Db, after: Db, k: Bytes, now: nat) {
    forall j | j != k :: Cell(Live(after, now), j) == Cell(Live(before, now), j)
  }

  /** The recreating command fails to restore a sorted set with an unprintable score. */
  lemma UnprintableIsLost(db: Db, argv: Argv, k: Bytes, z: map<Bytes, int>, now: nat, c: ScoreText, m: Bytes)
    requires Recreates(argv, k, ZSet(z), c) && k !in Live(db, now)
    requires m in z && c.parse(c.fmt(z[m])) != Some(z[m])
    ensures argv != [] && Lacks(Execute(db, argv, now, c).0, k, ZSet(z), now)
    ensures Elsewhere(db, Execute(db, argv, now, c).0, k, now)
  {
    hide Sorted, Relation, FromPairs, FlatRanks, ScorePairs, Ascii, Dispatch, Live;
    var ranks := Sorted(Relation(z));
    ScoresReparsed(ranks, c);
    SortedIsAscending(Relation(z));
    InRelation(z);
    assert (z[m], m) in ranks;
    assert argv[2..] == FlatRanks(ranks, c);
    var p := ScorePairs(FlatRanks(ranks, c), c);
    if p.None? {
      UnparsedIsRefused(argv, now, c, []);
    } else {
      ZaddCalls(argv, now, c);
      ExecuteOne(db, argv, now, c, Modify(k, ZAdd(p.value)));
      ReparsedDiffers(z, p.value, m, c);
      EditedShows(db, k, p.value, now, z);
    }
  }

  lemma {:induction false} EditedShows(db: Db, k: Bytes, ps: seq<(Bytes, int)>, now: nat, z: map<Bytes, int>)
    requires k !in Live(db, now) && map[] + FromPairs(ps) != z
    ensures var after := Apply(db, Modify(k, ZAdd(ps)), now).0;
            Lacks(after, k, ZSet(z), now) && Elsewhere(db, after, k, now)
  {
    hide FromPairs;
  }

  /** A sorted set survives the snapshot if and only if every score survives its text form. */
  lemma ZSetSurvivesIffPrintable(db: Db, argv: Argv, k: Bytes, z: map<Bytes, int>, now: nat, c: ScoreText)
    requires Recreates(argv, k, ZSet(z), c) && z != map[] && k !in Live(db, now)
    ensures argv != []
    ensures Cell(Live(Execute(db, argv, now, c).0, now), k) == Some(Entry(ZSet(z), None)) <==> Printable(ZSet(z), c)
  {
    hide Execute, Recreates;
    if Printable(ZSet(z), c) {
      ZSetRestores(db, argv, k, z, now, c);
    } else {
      var m :| m in z && c.parse(c.fmt(z[m])) != Some(z[m]);
      UnprintableIsLost(db, argv, k, z, now, c, m);
    }
  }

  /**
   * Negative zero: its key in the total order is -1, it prints as "0", and "0" reads back as
   * positive zero, whose key is 0. A sorted set that holds it is not restored.
   */
  lemma NegativeZeroIsLost(db: Db, argv: Argv, k: Bytes, member: Bytes, now: nat, c: ScoreText)
    requires c.fmt(-1) == Ascii("0") && c.parse(Ascii("0")) == Some(0)
    requires Recreates(argv, k, ZSet(map[member := -1]), c) && k !in Live(db, now)
    ensures argv != [] && Cell(Live(Execute(db, argv, now, c).0, now), k) != Some(Entry(ZSet(map[member := -1]), None))
  {
    hide Execute, Recreates, Live;
    UnprintableIsLost(db, argv, k, map[member := -1], now, c, member);
  }

  lemma TooLateToParse(t: nat)
    requires t > I64_MAX
    ensures ParseI64(DecimalOf(t)) == None
  {
    ValueOfDigits(t);
    assert IsDigit(Digits(t)[0]);
  }

  lemma LateExpiryIsRefused(k: Bytes, t: nat, now: nat, c: ScoreText, got: seq<Answer>)
    requires t > I64_MAX
    ensures var p := Dispatch(ExpiryCommand(k, t), now, c); p.ops == [] && p.next(got).Stop?
  {
    hide Ascii, Upper, ParseI64, DecimalOf, UntimedPlan, SetCommand, SetExCommand;
    UpperOfName("PEXPIREAT");
    TooLateToParse(t);
  }

  /** A restored key gets its expiry back if and only if the expiry fits a signed 64-bit number. */
  lemma ExpirySurvivesIffI64(db: Db, k: Bytes, t: nat, now: nat, c: ScoreText)
    requires k in Live(db, now) && db[k].expireAt.None?
    ensures var after := Execute(db, ExpiryCommand(k, t), now, c).0;
            k in after && (after[k].expireAt == Some(t) <==> t <= I64_MAX)
  {
    hide Dispatch, Apply;
    if t <= I64_MAX {
      ExpiryRestores(db, k, t, now, c);
    } else {
      LateExpiryIsRefused(k, t, now, c, []);
    }
  }

  // ---------- the whole dump ----------

  ghost predicate EntrySurvives(e: Entry, c: ScoreText) {
    Printable(e.value, c) && (e.expireAt.Some? ==> e.expireAt.value <= I64_MAX)
  }

  lemma {:induction false} PexpireatMisses(db: Db, k: Bytes, t: nat, now: nat, c: ScoreText)
    requires t <= I64_MAX && k !in Live(db, now)
    ensures Execute(db, ExpiryCommand(k, t), now, c).0 == Live(db, now)
  {
    hide Live, Ascii, Upper, ParseI64, DecimalOf, UntimedPlan, SetCommand, SetExCommand;
    UpperOfName("PEXPIREAT");
    ParseWritten(t);
    var ops := [Read(k, Exists)];
    assert ops[..0] == [];
    assert RunOps(db, [], now) == (db, []);
    PutSame(Live(db, now), k);
    assert [] + [Flag(false)] == [Flag(false)];
  }

  /** The expiry command touches no other key and no value. */
  lemma ExpiryElsewhere(db: Db, k: Bytes, t: nat, now: nat, c: ScoreText)
    ensures var after := Execute(db, ExpiryCommand(k, t), now, c).0;
            && Elsewhere(db, after, k, now)
            && (k in Live(after, now) ==> k in Live(db, now) && after[k].value == db[k].value)
  {
    hide Execute, Dispatch, DecimalOf, Ascii;
    if t > I64_MAX {
      LateExpiryIsRefused(k, t, now, c, []);
      RefusedKeeps(db, ExpiryCommand(k, t), now, c);
    } else if k in Live(db, now) {
      ExpiryRestores(db, k, t, now, c);
    } else {
      PexpireatMisses(db, k, t, now, c);
    }
  }

  lemma RefusedKeeps(db: Db, argv: Argv, now: nat, c: ScoreText)
    requires argv != [] && var p := Dispatch(argv, now, c); p.ops == [] && p.next([]).Stop?
    ensures Execute(db, argv, now, c).0 == db
  {
    hide Dispatch;
  }

  /** The recreating command restores the value if and only if it is printable, and touches no other key. */
  lemma RecreatedIff(db: Db, argv: Argv, k: Bytes, v: Value, now: nat, c: ScoreText)
    requires Recreates(argv, k, v, c) && !IsEmpty(v) && k !in Live(db, now)
    ensures argv != []
    ensures var after := Execute(db, argv, now, c).0;
            && Elsewhere(db, after, k, now)
            && (Printable(v, c) ==> Cell(Live(after, now), k) == Some(Entry(v, None)))
            && (!Printable(v, c) ==> Lacks(after, k, v, now))
  {
    hide Execute, Recreates, IsEmpty;
    if Printable(v, c) {
      RecreateRestores(db, argv, k, v, now, c);
    } else {
      var m :| m in v.scores && c.parse(c.fmt(v.scores[m])) != Some(v.scores[m]);
      UnprintableIsLost(db, argv, k, v.scores, now, c, m);
    }
  }

  /** The state after the dump of one entry. */
  function AfterEntry(db: Db, part: seq<Argv>, now: nat, c: ScoreText): Db
    requires forall i | 0 <= i < |part| :: part[i] != []
  {
    if part == [] then db else Execute(AfterEntry(db, part[..|part| - 1], now, c), part[|part| - 1], now, c).0
  }

  lemma {:induction false} EntryRestoredIff(db: Db, part: seq<Argv>, k: Bytes, e: Entry, now: nat, c: ScoreText)
    requires Dumps(part, k, e, c) && !IsEmpty(e.value) && k !in Live(db, now) && !Expired(e, now)
    ensures forall i | 0 <= i < |part| :: part[i] != []
    ensures var after := AfterEntry(db, part, now, c);
            && Elsewhere(db, after, k, now)
            && (Cell(Live(after, now), k) == Some(e) <==> EntrySurvives(e, c))
  {
    hide Execute, Recreates, IsEmpty, Printable, DecimalOf, Ascii;
    RecreatedIff(db, part[0], k, e.value, now, c);
    var one := Execute(db, part[0], now, c).0;
    assert part[..1][..0] == [] && part[..1] == [part[0]];
    assert AfterEntry(db, [part[0]], now, c) == one by {
      assert [part[0]][..0] == [];
    }
    if e.expireAt.None? {
      assert part == [part[0]];
    } else {
      var t := e.expireAt.value;
      assert part[..|part| - 1] == [part[0]];
      ExpiryElsewhere(one, k, t, now, c);
      if Printable(e.value, c) && t <= I64_MAX {
        ExpiryRestores(one, k, t, now, c);
      } else if Printable(e.value, c) {
        LateExpiryIsRefused(k, t, now, c, []);
        RefusedKeeps(one, ExpiryCommand(k, t), now, c);
      }
    }
  }

  function Always(now: nat): nat -> nat {
    (i: nat) => now
  }

  lemma {:induction false} ReplayedPart(cmds: seq<Argv>, n: nat, now: nat, c: ScoreText)
    requires n <= |cmds| && forall i | 0 <= i < |cmds| :: cmds[i] != []
    ensures Runnable(Persistence.Stamp(cmds[..n], Always(now))) && Runnable(Persistence.Stamp(cmds, Always(now)))
    ensures ExecuteAll(map[], Persistence.Stamp(cmds, Always(now)), c)
         == AfterEntry(ExecuteAll(map[], Persistence.Stamp(cmds[..n], Always(now)), c), cmds[n..], now, c)
    decreases |cmds|
  {
    hide Execute;
    if n == |cmds| {
      assert cmds[..n] == cmds && cmds[n..] == [];
    } else {
      var m := |cmds| - 1;
      ReplayedPart(cmds[..m], n, now, c);
      Persistence.StampSnoc(map[], cmds[..m], cmds[m], Always(now), c);
      assert cmds[..m] + [cmds[m]] == cmds;
      assert cmds[..m][..n] == cmds[..n] && cmds[..m][n..] == cmds[n..][..m - n] && cmds[n..][m - n] == cmds[m];
    }
  }

  /** Which of the listed keys a replay at the time of the dump restores. */
  ghost predicate RestoresExactly(got: Db, keys: seq<Bytes>, db: Db, now: nat, c: ScoreText) {
    && (forall k | k in keys :: k in db && (Cell(Live(got, now), k) == Some(db[k]) <==> EntrySurvives(db[k], c)))
    && (forall k | k !in keys :: k !in Live(got, now))
  }

  lemma OneMoreKey(before: Db, after: Db, keys: seq<Bytes>, db: Db, now: nat, c: ScoreText)
    requires keys != [] && Distinct(keys) && keys[|keys| - 1] in db
    requires RestoresExactly(before, keys[..|keys| - 1], db, now, c)
    requires var k := keys[|keys| - 1];
             Elsewhere(before, after, k, now) && (Cell(Live(after, now), k) == Some(db[k]) <==> EntrySurvives(db[k], c))
    ensures RestoresExactly(after, keys, db, now, c)
  {
    hide EntrySurvives, Live;
    var init, k := keys[..|keys| - 1], keys[|keys| - 1];
    assert forall j :: j in keys <==> j in init || j == k;
    forall j | j in keys ensures j in db && (Cell(Live(after, now), j) == Some(db[j]) <==> EntrySurvives(db[j], c)) {
      assert j != k ==> Cell(Live(after, now), j) == Cell(Live(before, now), j);
    }
    forall j | j !in keys ensures j !in Live(after, now) {
      assert Cell(Live(after, now), j) == Cell(Live(before, now), j);
    }
  }

  lemma {:induction false} KeysRestoredIff(cmds: seq<Argv>, keys: seq<Bytes>, db: Db, now: nat, c: ScoreText)
    requires DumpSeq(cmds, keys, db, c) && Distinct(keys) && NoneEmpty(db) && forall k | k in db :: !Expired(db[k], now)
    ensures Runnable(Persistence.Stamp(cmds, Always(now)))
    ensures RestoresExactly(ExecuteAll(map[], Persistence.Stamp(cmds, Always(now)), c), keys, db, now, c)
    decreases |keys|
  {
    hide Dumps, RestoresExactly, EntrySurvives, IsEmpty, Execute, Elsewhere, Live;
    DumpIsRunnable(cmds, keys, db, c);
    if keys == [] {
      NothingRestored(db, now, c);
    } else {
      var init, k := keys[..|keys| - 1], keys[|keys| - 1];
      var n := |cmds| - DumpLen(db[k]);
      KeysRestoredIff(cmds[..n], init, db, now, c);
      var before := ExecuteAll(map[], Persistence.Stamp(cmds[..n], Always(now)), c);
      assert k !in Live(before, now) by { NotYet(before, init, db, now, c, k); }
      ReplayedPart(cmds, n, now, c);
      EntryRestoredIff(before, cmds[n..], k, db[k], now, c);
      OneMoreKey(before, ExecuteAll(map[], Persistence.Stamp(cmds, Always(now)), c), keys, db, now, c);
    }
  }

  lemma NotYet(got: Db, keys: seq<Bytes>, db: Db, now: nat, c: ScoreText, k: Bytes)
    requires RestoresExactly(got, keys, db, now, c) && k !in keys
    ensures k !in Live(got, now)
  {
  }

  lemma {:induction false} NothingRestored(db: Db, now: nat, c: ScoreText)
    ensures RestoresExactly(ExecuteAll(map[], Persistence.Stamp([], Always(now)), c), [], db, now, c)
  {
  }

  /** A replay at the time of the dump shows the dataset if and only if every entry survives its text form. */
  lemma {:induction false} ReplayIsExact(db: Db, now: nat, cmds: seq<Argv>, keys: seq<Bytes>, c: ScoreText)
    requires IsDump(cmds, keys, Live(db, now), c) && NoneEmpty(Live(db, now))
    ensures Runnable(Persistence.Stamp(cmds, Always(now)))
    ensures Live(ExecuteAll(map[], Persistence.Stamp(cmds, Always(now)), c), now) == Live(db, now)
            <==> Restorable(Live(db, now), c)
  {
    hide Execute, ExecuteAll, DumpSeq, Printable;
    var image := Live(db, now);
    KeysRestoredIff(cmds, keys, image, now, c);
    var got := Live(ExecuteAll(map[], Persistence.Stamp(cmds, Always(now)), c), now);
    if Restorable(image, c) {
      forall k ensures Cell(got, k) == Cell(image, k) {
        assert k in image ==> EntrySurvives(image[k], c);
      }
      Stores.SameCells(got, image);
    } else {
      var k :| k in image && !EntrySurvives(image[k], c);
      assert Cell(got, k) != Cell(image, k);
    }
  }

  /** Replayed with this clock and looked at at this time, the dump shows what the original shows. */
  ghost predicate Faithful(db: Db, now: nat, cmds: seq<Argv>, clock: nat -> nat, later: nat, c: ScoreText) {
    Persistence.Monotone(clock) && now <= later && Persistence.LastTime(clock, |cmds|) <= later ==>
      && Runnable(Persistence.Stamp(cmds, clock))
      && Live(ExecuteAll(map[], Persistence.Stamp(cmds, clock), c), later) == Live(db, later)
  }

  /**
   * The snapshot round trip, exactly: with every clock and at every time the replayed dump shows
   * what the original shows, if and only if every score survives its text form and every expiry
   * fits a signed 64-bit number.
   */
  lemma {:induction false} SnapshotIsExact(db: Db, now: nat, cmds: seq<Argv>, keys: seq<Bytes>, c: ScoreText)
    requires IsDump(cmds, keys, Live(db, now), c) && NoneEmpty(Live(db, now))
    ensures Restorable(Live(db, now), c) <==> forall clock: nat -> nat, later: nat :: Faithful(db, now, cmds, clock, later, c)
  {
    hide ExecuteAll, IsDump, Restorable, Live;
    if Restorable(Live(db, now), c) {
      forall clock: nat -> nat, later: nat ensures Faithful(db, now, cmds, clock, later, c) {
        if Persistence.Monotone(clock) && now <= later && Persistence.LastTime(clock, |cmds|) <= later {
          SnapshotRoundTrip(db, now, cmds, keys, clock, c, later);
        }
      }
    } else {
      ReplayIsExact(db, now, cmds, keys, c);
      assert !Faithful(db, now, cmds, Always(now), now, c);
    }
  }

  // ---------- scores that are integers ----------

  /** The printer casts an integral score to 64 bits, which saturates. */
  function SaturatedText(n: int): Bytes {
    DecimalOf(Max(I64_MIN, Min(n, I64_MAX)))
  }

  /** The gap between neighbouring 64-bit floats at an integer: they have 53 significant bits. */
  function Gap(n: nat): (g: nat)
    ensures g > 0
  {
    if n < 0x20_0000_0000_0000 then 1 else 2 * Gap(n / 2)
  }

  /** The nearest float, the even one of two. */
  function Nearest(n: nat): nat {
    var g := Gap(n);
    var q, r := n / g, n % g;
    if 2 * r < g || (2 * r == g && q % 2 == 0) then q * g else (q + 1) * g
  }

  function Rounded(n: int): int {
    if n < 0 then 0 - Nearest(-n) else Nearest(n)
  }

  /** The integers that are 64-bit floats. */
  predicate IsFloat(n: int) {
    var a := if n < 0 then -n else n;
    a % Gap(a) == 0
  }

  /** Reading the text of an integer as a float. */
  function ReadFloat(text: Bytes): Option<int> {
    match ParseI64(text)
    case None => None
    case Some(n) => Some(Rounded(n))
  }

  const INTEGERS := ScoreText(SaturatedText, ReadFloat)

  lemma FloatsStay(n: int)
    requires IsFloat(n)
    ensures Rounded(n) == n
  {
  }

  /** The largest signed number is no float: it is read as the one above it, the smallest is read as itself. */
  lemma EndsRounded()
    ensures Rounded(I64_MAX) == I64_MAX + 1 && Rounded(I64_MIN) == I64_MIN
  {
    assert Gap(0x7fff_ffff_ffff_ffff) == 1024;
    assert Gap(0x8000_0000_0000_0000) == 2048;
  }

  /** With integral scores a sorted set survives if and only if they lie between -2^63 and 2^63, both included. */
  lemma IntegersSurvive(z: map<Bytes, int>)
    requires forall m | m in z :: IsFloat(z[m])
    ensures Printable(ZSet(z), INTEGERS) <==> forall m | m in z :: I64_MIN <= z[m] <= I64_MAX + 1
  {
    hide DecimalOf, ParseI64, Gap, Nearest, IsFloat;
    forall m | m in z ensures ReadFloat(SaturatedText(z[m])) == Some(z[m]) <==> I64_MIN <= z[m] <= I64_MAX + 1 {
      ParseWritten(Max(I64_MIN, Min(z[m], I64_MAX)));
      FloatsStay(z[m]);
      EndsRounded();
    }
    assert forall m | m in z :: INTEGERS.parse(INTEGERS.fmt(z[m])) == ReadFloat(SaturatedText(z[m]));
  }

  // ---------- a late expiry can be reached ----------

  /** `SET k v PX 9223372036854775807`. */
  function SetForever(k: Bytes, v: Bytes): Argv {
    [Ascii("SET"), k, v, Ascii("PX"), DecimalOf(I64_MAX)]
  }

  lemma PxNames()
    ensures Upper(Ascii("SET")) == Ascii("SET") && UpperAll(Ascii("PX")) == Ascii("PX")
    ensures Ascii("PX") != Ascii("NX") && Ascii("PX") != Ascii("XX") && Ascii("PX") != Ascii("EX")
    ensures Ascii("PX") != Ascii("KEEPTTL") && Ascii("PX") != Ascii("GET")
  {
    UpperOfName("SET");
    AsciiDiffer("PX", "NX", 0);
    AsciiDiffer("PX", "XX", 0);
    AsciiDiffer("PX", "EX", 0);
    var u, p := UpperAll(Ascii("PX")), Ascii("PX");
    assert p[0] as int == 'P' as int && p[1] as int == 'X' as int;
    assert u == p;
  }

  lemma SetForeverPlan(k: Bytes, v: Bytes, now: nat, c: ScoreText)
    requires 1 <= now <= I64_MAX
    ensures var p := Dispatch(SetForever(k, v), now, c);
            p.ops == [] && p.next([]).Last? && p.next([]).op == SetString(k, v, PLAIN.(expireAt := Some(now + I64_MAX)))
  {
    hide Ascii, Upper, UpperAll, ParseI64, DecimalOf, UntimedPlan, SetExCommand, ExpireCommand;
    PxNames();
    ParseWritten(I64_MAX);
    var argv := SetForever(k, v);
    var s := SetArgs(PLAIN.(expireAt := Some(now + I64_MAX)), false);
    assert ExpiryOf(Ascii("PX"), I64_MAX, now) == now + I64_MAX;
    assert ScanSetOptions(argv, 5, s, now) == Result.Ok(s);
    assert ScanSetOptions(argv, 3, SetArgs(PLAIN, false), now) == Result.Ok(s);
  }

  /**
   * One command on an empty store leads to a dataset whose snapshot does not restore it: the key
   * comes back without its expiry.
   */
  lemma {:induction false} ForeverIsLost(k: Bytes, v: Bytes, now: nat, cmds: seq<Argv>, keys: seq<Bytes>, c: ScoreText)
    requires 1 <= now <= I64_MAX
    ensures var db := Execute(map[], SetForever(k, v), now, c).0;
            && db == map[k := Entry(Str(v), Some(now + I64_MAX))] && now + I64_MAX > I64_MAX
            && (IsDump(cmds, keys, Live(db, now), c) ==>
                  && Runnable(Persistence.Stamp(cmds, Always(now)))
                  && Live(ExecuteAll(map[], Persistence.Stamp(cmds, Always(now)), c), now) != Live(db, now))
  {
    hide Dispatch, ExecuteAll, IsDump, DecimalOf, Ascii;
    SetForeverPlan(k, v, now, c);
    var db := map[k := Entry(Str(v), Some(now + I64_MAX))];
    assert Live(map[], now) == map[];
    ExecuteOne(map[], SetForever(k, v), now, c, SetString(k, v, PLAIN.(expireAt := Some(now + I64_MAX))));
    assert Live(db, now) == db;
    if IsDump(cmds, keys, Live(db, now), c) {
      ReplayIsExact(db, now, cmds, keys, c);
    }
  }

  // ---------- an oversized entry can be reached ----------

  /** `n` times `RPUSH k x`. */
  function Pushes(k: Bytes, x: Bytes, n: nat): (cmds: seq<Argv>)
    ensures |cmds| == n && forall i | 0 <= i < n :: cmds[i] == [Ascii("RPUSH"), k, x]
  {
    seq(n, i => [Ascii("RPUSH"), k, x])
  }

  /** A list of `n` equal items. */
  function Repeated(x: Bytes, n: nat): (l: seq<Bytes>)
    ensures |l| == n && forall i | 0 <= i < n :: l[i] == x
  {
    seq(n, i => x)
  }

  function ListOf(k: Bytes, x: Bytes, n: nat): Db {
    if n == 0 then map[] else map[k := Entry(List(Repeated(x, n)), None)]
  }

  lemma PushAppends(k: Bytes, x: Bytes, n: nat, now: nat)
    ensures Apply(ListOf(k, x, n), Modify(k, Push([x], false)), now).0 == ListOf(k, x, n + 1)
  {
    assert Live(ListOf(k, x, n), now) == ListOf(k, x, n);
    assert Repeated(x, n) + [x] == Repeated(x, n + 1);
    assert n == 0 ==> [] + [x] == Repeated(x, 1);
  }

  /** One item at a time the list grows to any length. */
  lemma {:induction false} PushesBuild(k: Bytes, x: Bytes, n: nat, clock: nat -> nat, c: ScoreText)
    ensures Runnable(Persistence.Stamp(Pushes(k, x, n), clock))
    ensures ExecuteAll(map[], Persistence.Stamp(Pushes(k, x, n), clock), c) == ListOf(k, x, n)
  {
    hide Execute, Apply, Dispatch, Ascii;
    if n == 0 {
      assert Persistence.Stamp(Pushes(k, x, 0), clock) == [];
    } else {
      var push := [Ascii("RPUSH"), k, x];
      PushesBuild(k, x, n - 1, clock, c);
      assert Pushes(k, x, n) == Pushes(k, x, n - 1) + [push];
      Persistence.StampSnoc(map[], Pushes(k, x, n - 1), push, clock, c);
      RpushCalls(push, clock(n - 1), c);
      assert push[2..] == [x];
      ExecuteOne(ListOf(k, x, n - 1), push, clock(n - 1), c, Modify(k, Push([x], false)));
      PushAppends(k, x, n - 1, clock(n - 1));
    }
  }

  lemma OneDumped(cmds: seq<Argv>, keys: seq<Bytes>, k: Bytes, e: Entry, c: ScoreText)
    requires IsDump(cmds, keys, map[k := e], c)
    ensures keys == [k]
  {
    hide DumpSeq;
    CountKeys(keys, {k});
    assert keys[0] in keys;
  }

  /**
   * A list that clients built one item at a time, each command within the parser's limits: its dump
   * restores it if it has at most `MAX_ARRAY_LEN - 2` items, and otherwise nothing at all.
   */
  lemma {:induction false} LongListIsLost(k: Bytes, x: Bytes, n: nat, built: nat -> nat, cmds: seq<Argv>, keys: seq<Bytes>,
                                          clock: nat -> nat, c: ScoreText)
    requires Frames.Short(k) && Frames.Short(x) && n > 0 && Persistence.Monotone(clock)
    ensures Persistence.Loggable(Pushes(k, x, n)) && Runnable(Persistence.Stamp(Pushes(k, x, n), built))
    ensures var db := ExecuteAll(map[], Persistence.Stamp(Pushes(k, x, n), built), c);
            && db == map[k := Entry(List(Repeated(x, n)), None)]
            && (IsDump(cmds, keys, db, c) ==>
                  var got := Streams.Drain(Frames.EncodeAll(cmds)).cmds;
                  var restored := if n + 2 <= MAX_ARRAY_LEN then db else map[];
                  Persistence.Shows(restored, map[], got, clock, c, Persistence.LastTime(clock, |got|)))
  {
    hide Persistence.Monotone, Persistence.Shows, ExecuteAll, IsDump, Streams.Drain, Frames.EncodeAll, Persistence.LastTime, Only,
         Restorable, Recovery.FitsUpTo;
    PushesBuild(k, x, n, built, c);
    PushFits(k, x);
    var db := ListOf(k, x, n);
    if IsDump(cmds, keys, db, c) {
      OneDumped(cmds, keys, k, db[k], c);
      ListRestorable(k, x, n, c);
      var i := Recovery.DumpRestores(db, cmds, [k], clock, c);
      ListFits(k, x, n, c, i);
      OnlyFirst(k, db[k], i);
    }
  }

  lemma ListRestorable(k: Bytes, x: Bytes, n: nat, c: ScoreText)
    ensures Restorable(ListOf(k, x, n), c)
  {
  }

  lemma ListFits(k: Bytes, x: Bytes, n: nat, c: ScoreText, i: nat)
    requires Frames.Short(k) && Frames.Short(x) && n > 0 && Recovery.FitsUpTo(ListOf(k, x, n), [k], c, i)
    ensures i == if n + 2 <= MAX_ARRAY_LEN then 1 else 0
  {
    hide Frames.Short;
    assert [k][0] == k;
    assert SnapshotSizes.EntryFits(k, List(Repeated(x, n)), c) <==> n + 2 <= MAX_ARRAY_LEN;
  }

  lemma OnlyFirst(k: Bytes, e: Entry, i: nat)
    requires i <= 1
    ensures Only(map[k := e], [k][..i]) == if i == 1 then map[k := e] else map[]
  {
    assert i == 1 ==> [k][..i] == [k];
  }

  lemma PushFits(k: Bytes, x: Bytes)
    requires Frames.Short(k) && Frames.Short(x)
    ensures Frames.Fits([Ascii("RPUSH"), k, x])
  {
  }
}
