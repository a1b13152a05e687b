/** Two runs in which a write races the handshake: one loses it, one applies it twice. */
module ReplicationRaces {
  import opened Basics
  import opened Decimal
  import opened Resp
  import opened Frames
  import opened Values
  import opened Keyspace
  import opened Commands
  import opened CommandLog
  import opened ExpiryFree
  import opened Replication
  import FastPath
  import Snapshot
  import Streams

  function SetTo(k: Bytes, v: Bytes): Argv {
    [Ascii("SET"), k, v]
  }

  function Increment(k: Bytes): Argv {
    [Ascii("INCR"), k]
  }

  /** A plain SET: the key holds the value, and the command is flagged. */
  lemma SetServes(db: Db, k: Bytes, v: Bytes, now: nat, c: ScoreText)
    requires Permanent(db) && Short(k) && Short(v)
    ensures Timeless(SetTo(k, v)) && Fits(SetTo(k, v))
    ensures var (after, out) := Execute(db, SetTo(k, v), now, c);
            after == db[k := Entry(Str(v), None)] && out.persist
  {
    hide Execute, Ascii, Apply, Live, Timeless;
    RecreateIsTimeless(SetTo(k, v), k, Str(v), c);
    Snapshot.UpperOfName("SET");
    FastPath.ExecuteOfFast(db, SetTo(k, v), now, c);
    AsciiDiffer("GET", "SET", 0);
    SetApplies(db, k, v, now);
  }

  lemma SetApplies(db: Db, k: Bytes, v: Bytes, now: nat)
    requires Permanent(db)
    ensures Apply(db, SetString(k, v, PLAIN), now) == (db[k := Entry(Str(v), None)], Flag(true))
  {
    hide Live;
    LiveIsAll(db, now);
  }

  lemma IncrNames()
    ensures Upper(Ascii("INCR")) == Ascii("INCR")
  {
    var u, p := Upper(Ascii("INCR")), Ascii("INCR");
    assert u == p;
  }

  lemma IncrIsTimeless(k: Bytes)
    ensures Timeless(Increment(k))
  {
    hide Ascii, Upper;
    IncrNames();
    FastPath.NotTimed("INCR");
  }

  /** INCR of a permanent key: it holds the next number, and the command is flagged. */
  lemma IncrServes(db: Db, k: Bytes, n: int, now: nat, c: ScoreText)
    requires Permanent(db) && Short(k) && IsI64(n) && IsI64(n + 1)
    requires if n == 0 then k !in db else k in db && db[k] == Entry(Str(DecimalOf(n)), None)
    ensures Timeless(Increment(k)) && Fits(Increment(k))
    ensures var (after, out) := Execute(db, Increment(k), now, c);
            after == db[k := Entry(Str(DecimalOf(n + 1)), None)] && out.persist
  {
    hide Execute, Ascii, Apply, Timeless, DecimalOf;
    IncrIsTimeless(k);
    IncrNames();
    FastPath.ExecuteOfFast(db, Increment(k), now, c);
    FastPath.NotTimed("INCR");
    FastPath.NotString("INCR");
    AsciiDiffer("INCR", "DECR", 0);
    IncrApplies(db, k, n, now);
  }

  lemma IncrApplies(db: Db, k: Bytes, n: int, now: nat)
    requires Permanent(db) && IsI64(n) && IsI64(n + 1)
    requires if n == 0 then k !in db else k in db && db[k] == Entry(Str(DecimalOf(n)), None)
    ensures Apply(db, IncrBy(k, 1), now) == (db[k := Entry(Str(DecimalOf(n + 1)), None)], Number(n + 1))
  {
    hide Live, DecimalOf, ParseCounter;
    LiveIsAll(db, now);
    ParseCounterWritten(n);
  }

  // ---------- a write that is lost ----------

  lemma NothingCarries(c: ScoreText)
    ensures Carries([], [], map[], c)
  {
  }

  /** Dumped, then written, then registered: nothing of the write is on the wire. */
  lemma {:induction false} MissedByDump(k: Bytes, v: Bytes, now: nat, c: ScoreText) returns (acts: seq<Action>, s: System)
    requires Short(k) && Short(v)
    ensures Reaches(acts, s, c) && s.registered && s.linked && s.flight.None? && s.dumped == Some(0)
    ensures s.dump == s.twice == s.feed == [] && s.lost == [SetTo(k, v)] && s.wire == [] && s.taken == 0 && s.applied == [] && !s.closed
    ensures s.hist == [Timed(SetTo(k, v), now)]
    ensures s.primary == map[k := Entry(Str(v), None)] && s.replica == map[]
  {
    hide Execute, Timeless, Fits, Encode, Carries, Streams.Drain, Reaches;
    NothingCarries(c);
    SetServes(map[], k, v, now, c);
    StartReached(c);
    var a0: seq<Action> := [];
    var dump, serve := Dump([], []), Serve(SetTo(k, v), now);
    ReachesNext(a0, START, dump, c);
    var s1 := Next(START, dump, c);
    ReachesNext(a0 + [dump], s1, serve, c);
    var s2 := Next(s1, serve, c);
    ReachesNext(a0 + [dump] + [serve], s2, Propagate(0), c);
    var s3 := Next(s2, Propagate(0), c);
    ReachesNext(a0 + [dump] + [serve] + [Propagate(0)], s3, Register(0), c);
    acts := a0 + [dump] + [serve] + [Propagate(0)] + [Register(0)];
    s := Next(s3, Register(0), c);
    assert EncodeAll([]) == [];
  }

  /**
   * The lost write. It is served between the dump and the registration; a later write arrives, the
   * replica reads everything there is to read on an unbroken link, and the first key is missing.
   */
  lemma {:induction false} LostWrite(k: Bytes, v: Bytes, k2: Bytes, v2: Bytes, now: nat, c: ScoreText)
    returns (acts: seq<Action>, s: System)
    requires Short(k) && Short(v) && Short(k2) && Short(v2) && k != k2
    ensures Reaches(acts, s, c) && s.linked && s.taken == |s.wire| && s.flight.None?
    ensures k in s.primary && k !in s.replica && k2 in s.primary && k2 in s.replica
  {
    hide Execute, Timeless, Fits, Encode, EncodeAll, Carries, Streams.Drain, Reaches, ExecuteAll;
    var first, s4 := MissedByDump(k, v, now, c);
    SetServes(s4.primary, k2, v2, now, c);
    var serve := Serve(SetTo(k2, v2), now);
    ReachesNext(first, s4, serve, c);
    var s5 := Next(s4, serve, c);
    var send := Propagate(|Encode(SetTo(k2, v2))|);
    ReachesNext(first + [serve], s5, send, c);
    var s6 := Next(s5, send, c);
    assert |Encode(SetTo(k2, v2))| > 0;
    assert s6.wire == Encode(SetTo(k2, v2)) && s6.feed == [SetTo(k2, v2)] && s6.linked;
    var read := Action.Read(|s6.wire|, (i: nat) => now);
    ReachesNext(first + [serve] + [send], s6, read, c);
    acts := first + [serve] + [send] + [read];
    s := Next(s6, read, c);
    AllArrived(acts, s, c);
    var n := ReplicaHolds(acts, s, c);
    assert (s.twice + s.feed)[..n] == [SetTo(k2, v2)];
    OntoOne(s, SetTo(k2, v2), c);
    JointIsEmpty(s, c);
    SetServes(map[], k2, v2, 0, c);
  }

  lemma {:induction false} OntoOne(s: System, argv: Argv, c: ScoreText)
    requires Served(s, c) && s.dumped.Some? && s.dumped.value <= |s.hist| && Timeless(argv)
    ensures AllTimeless([argv]) && Onto(s, [argv], c) == Execute(Joint(s, c), argv, 0, c).0
  {
    hide Execute, Timeless, Joint;
    var h := AtZero([argv]);
    assert h[..0] == [] && h[0] == Timed(argv, 0);
    assert ExecuteAll(Joint(s, c), [], c) == Joint(s, c);
  }

  lemma JointIsEmpty(s: System, c: ScoreText)
    requires Served(s, c) && s.dumped == Some(0)
    ensures Joint(s, c) == map[]
  {
    assert s.hist[..0] == [];
  }

  // ---------- a write that is applied twice ----------

  /** A counter at one, dumped. */
  lemma OneCarries(k: Bytes, c: ScoreText)
    requires Short(k)
    ensures Carries([SetTo(k, DecimalOf(1))], [k], map[k := Entry(Str(DecimalOf(1)), None)], c)
  {
    var cmds, keys, db := [SetTo(k, DecimalOf(1))], [k], map[k := Entry(Str(DecimalOf(1)), None)];
    assert cmds[..0] == [] && cmds[0..] == cmds && keys[..0] == [];
    assert Snapshot.DumpSeq([], [], db, c);
    assert Snapshot.Dumps(cmds, k, db[k], c);
    assert DecimalOf(1) == Digits(1) && |Digits(1)| == 1;
  }

  /**
   * The repeated write. It is served before the dump and propagated after the registration; with an
   * increment the replica ends one ahead of the primary.
   */
  lemma {:induction false} RepeatedWrite(k: Bytes, now: nat, c: ScoreText) returns (acts: seq<Action>, s: System)
    requires Short(k)
    ensures Reaches(acts, s, c) && s.registered && s.linked && s.taken == |s.wire| && s.flight.None?
    ensures s.twice == [Increment(k)] && s.primary == map[k := Entry(Str(DecimalOf(1)), None)]
    ensures s.replica == map[k := Entry(Str(DecimalOf(2)), None)]
  {
    hide Execute, Timeless, Fits, Encode, EncodeAll, Carries, Streams.Drain, Reaches, ExecuteAll, DecimalOf;
    var one := map[k := Entry(Str(DecimalOf(1)), None)];
    var a0: seq<Action> := [];
    var serve, dump := Serve(Increment(k), now), Dump([SetTo(k, DecimalOf(1))], [k]);
    IncrServes(map[], k, 0, now, c);
    OneCarries(k, c);
    StartReached(c);
    ReachesNext(a0, START, serve, c);
    var s1 := Next(START, serve, c);
    assert s1.primary == one;
    ReachesNext(a0 + [serve], s1, dump, c);
    var s2 := Next(s1, dump, c);
    var register := Register(|EncodeAll(s2.dump)|);
    ReachesNext(a0 + [serve] + [dump], s2, register, c);
    var s3 := Next(s2, register, c);
    var send := Propagate(|Encode(Increment(k))|);
    ReachesNext(a0 + [serve] + [dump] + [register], s3, send, c);
    var s4 := Next(s3, send, c);
    assert |Encode(Increment(k))| > 0;
    var read := Action.Read(|s4.wire|, (i: nat) => now);
    ReachesNext(a0 + [serve] + [dump] + [register] + [send], s4, read, c);
    acts := a0 + [serve] + [dump] + [register] + [send] + [read];
    s := Next(s4, read, c);
    AllArrived(acts, s, c);
    var n := ReplicaHolds(acts, s, c);
    assert (s.twice + s.feed)[..n] == [Increment(k)];
    OntoOne(s, Increment(k), c);
    JointIsPrimary(s, c);
    IncrServes(one, k, 1, 0, c);
    assert one[k := Entry(Str(DecimalOf(2)), None)] == map[k := Entry(Str(DecimalOf(2)), None)];
  }

  lemma JointIsPrimary(s: System, c: ScoreText)
    requires Served(s, c) && s.dumped == Some(|s.hist|)
    ensures Joint(s, c) == s.primary
  {
    hide ExecuteAll;
    assert s.hist[..|s.hist|] == s.hist;
  }
}
