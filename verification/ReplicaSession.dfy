/** The code on both ends of a replication socket: the registry, the primary's hook, the apply loop. */
module ReplicaSession {
  import opened Basics
  import opened Resp
  import opened Frames
  import opened Keyspace
  import opened Commands
  import opened Replies
  import opened CommandLog
  import opened ExpiryFree
  import opened Persistence
  import opened Shards
  import opened Stores
  import opened Replication
  import FastPath
  import Recovery
  import Snapshot
  import SnapshotSizes
  import Streams

  // ---------- the primary ----------

  /** How many of `n` more bytes are accepted by what holds `held` bytes and fails at `limit`. */
  function Accepted(limit: Option<nat>, held: nat, n: nat): (k: nat)
    ensures k <= n
  {
    if limit.None? then n else Min(n, Max(0, limit.value - held))
  }

  /** A write of `bytes`: what is accepted of them, and success exactly if that is all. */
  predicate Took(before: Bytes, after: Bytes, bytes: Bytes, limit: Option<nat>, ok: bool) {
    var k := Accepted(limit, |before|, |bytes|);
    after == before + bytes[..k] && (ok <==> k == |bytes|)
  }

  /** What is there after writing `all` piece by piece, up to the piece that failed. */
  ghost predicate Holds(held: Bytes, limit: Option<nat>, all: Bytes) {
    held == all[..Accepted(limit, 0, |all|)]
  }

  lemma HoldsMore(held: Bytes, limit: Option<nat>, all: Bytes, more: Bytes)
    requires Holds(held, limit, all)
    ensures Holds(held + more[..Accepted(limit, |held|, |more|)], limit, all + more)
  {
  }

  /** A connection that accepts bytes until it fails. */
  class Socket {
    var sent: Bytes
    const lifetime: Option<nat>

    constructor (lifetime: Option<nat>)
      ensures sent == [] && this.lifetime == lifetime
    {
      sent := [];
      this.lifetime := lifetime;
    }

    method WriteAll(bytes: Bytes) returns (ok: bool)
      modifies this
      ensures Took(old(sent), sent, bytes, lifetime, ok)
      ensures ok <==> lifetime.None? || bytes == [] || |old(sent)| + |bytes| <= lifetime.value
    {
      var k := Accepted(lifetime, |sent|, |bytes|);
      sent := sent + bytes[..k];
      ok := k == |bytes|;
    }
  }

  /** The append-only file; the disk may fill up. */
  class Aof {
    var file: Bytes
    const room: Option<nat>

    constructor (room: Option<nat>)
      ensures file == [] && this.room == room
    {
      file := [];
      this.room := room;
    }

    method Append(argv: Argv) returns (ok: bool)
      modifies this
      ensures Took(old(file), file, Encode(argv), room, ok)
    {
      hide Encode;
      var buf := EncodeCommand([], argv);
      assert buf == Encode(argv);
      var k := Accepted(room, |file|, |buf|);
      file := file + buf[..k];
      ok := k == |buf|;
    }
  }

  /** The members of `ss` that are in `kept`, in order. */
  ghost function Retained(ss: seq<Socket>, kept: set<Socket>): seq<Socket> {
    if ss == [] then []
    else
      var init, s := ss[..|ss| - 1], ss[|ss| - 1];
      Retained(init, kept) + (if s in kept then [s] else [])
  }

  lemma {:induction false} RetainedOthers(ss: seq<Socket>, kept: set<Socket>, s: Socket)
    requires s !in ss
    ensures Retained(ss, kept + {s}) == Retained(ss, kept)
  {
    if ss != [] {
      assert ss[..|ss| - 1] <= ss;
      RetainedOthers(ss[..|ss| - 1], kept, s);
    }
  }

  lemma {:induction false} RetainedNext(ss: seq<Socket>, i: nat, kept: set<Socket>)
    requires DistinctSockets(ss) && i < |ss| && forall s | s in kept :: s in ss[..i]
    ensures Retained(ss[..i + 1], kept) == Retained(ss[..i], kept)
    ensures Retained(ss[..i + 1], kept + {ss[i]}) == Retained(ss[..i], kept) + [ss[i]]
  {
    assert ss[..i + 1][..i] == ss[..i];
    RetainedOthers(ss[..i], kept, ss[i]);
  }

  lemma {:induction false} RetainedDistinct(ss: seq<Socket>, kept: set<Socket>)
    requires DistinctSockets(ss)
    ensures DistinctSockets(Retained(ss, kept))
    ensures forall s :: s in Retained(ss, kept) <==> s in ss && s in kept
  {
    if ss != [] {
      RetainedDistinct(ss[..|ss| - 1], kept);
    }
  }

  lemma RetainedNone()
    ensures Retained([], {}) == []
  {
  }

  ghost predicate DistinctSockets(ss: seq<Socket>) {
    forall i, j | 0 <= i < j < |ss| :: ss[i] != ss[j]
  }

  class Registry {
    var replicas: seq<Socket>
    var count: nat

    ghost predicate Valid()
      reads this
    {
      count == |replicas| && DistinctSockets(replicas)
    }

    constructor ()
      ensures Valid() && replicas == []
    {
      replicas, count := [], 0;
    }

    /** A replica is registered only behind a snapshot that was written whole. */
    method AddReplicaWithSnapshot(sock: Socket, snapshot: Bytes)
      requires Valid() && sock !in replicas
      modifies this, sock
      ensures Valid() && Took(old(sock.sent), sock.sent, snapshot, sock.lifetime, sock in replicas)
      ensures replicas == if sock in replicas then old(replicas) + [sock] else old(replicas)
    {
      var ok := sock.WriteAll(snapshot);
      if ok {
        replicas := replicas + [sock];
        count := |replicas|;
      }
    }

    /** Every registered socket is written to once, and stays exactly if it took everything. */
    method Propagate(bytes: Bytes)
      requires Valid()
      modifies this, set s | s in replicas
      ensures Valid() && exists kept :: replicas == Retained(old(replicas), kept)
      ensures forall s | s in replicas :: s in old(replicas)
      ensures forall s | s in old(replicas) :: Took(old(s.sent), s.sent, bytes, s.lifetime, s in replicas)
    {
      hide Took, Retained;
      RetainedNone();
      if |replicas| == 0 {
        return;
      }
      var all := replicas;
      var keep: seq<Socket> := [];
      ghost var kept: set<Socket> := {};
      for i := 0 to |all|
        modifies all
        invariant replicas == all
        invariant keep == Retained(all[..i], kept) && forall s | s in kept :: s in all[..i]
        invariant forall j | 0 <= j < i :: Took(old(all[j].sent), all[j].sent, bytes, all[j].lifetime, all[j] in kept)
        invariant forall j | i <= j < |all| :: all[j].sent == old(all[j].sent)
      {
        var ok := all[i].WriteAll(bytes);
        RetainedNext(all, i, kept);
        if ok {
          keep := keep + [all[i]];
          kept := kept + {all[i]};
        }
      }
      assert all[..|all|] == all;
      RetainedDistinct(all, kept);
      replicas := keep;
      count := |replicas|;
    }
  }

  /** The store, the flags and, where the reply has a modelled wire form, the bytes are those of dispatch. */
  ghost predicate Answered(ims: seq<Image>, after: seq<Image>, cfg: Setup, argv: Argv, now: nat, c: ScoreText,
                           resp3: bool, sofar: Bytes, out: Bytes, isWrite: bool, quit: bool) {
    |ims| > 0 && argv != [] &&
    var (next, o) := FastPath.ExecuteOn(ims, cfg, argv, now, c);
    && after == next && isWrite == o.persist && quit == o.quit
    && (HasWireForm(o.reply) ==> out == sofar + Encoded(o.reply, resp3))
  }

  /** Without a memory limit the store shows what the reference shows, and the flag is the reference's. */
  ghost predicate Refers(before: Db, after: Db, argv: Argv, now: nat, c: ScoreText, isWrite: bool) {
    argv != [] &&
    var (next, o) := Execute(before, argv, now, c);
    isWrite == o.persist && Live(after, now) == Live(next, now)
  }

  /** What became of the bytes of a command: written if there is reason to, and otherwise nothing. */
  ghost predicate Passed(due: bool, before: Bytes, after: Bytes, argv: Argv, limit: Option<nat>, was: bool, ok: bool) {
    if due then Took(before, after, Encode(argv), limit, ok) else after == before && ok == was
  }

  /** A command that could not be logged is answered with an error behind its reply. */
  function Complaint(failed: bool, reason: Bytes, resp3: bool): Bytes {
    if failed then Encoded(Error(Ascii("ERR aof write failed: ") + reason), resp3) else []
  }

  /** A flagged command to the log, if there is one, and to every replica. */
  method PassOn(aof: Aof?, repl: Registry, argv: Argv) returns (ok: bool)
    requires repl.Valid()
    modifies aof, repl, set s | s in repl.replicas
    ensures repl.Valid() && (aof == null ==> ok) && (aof != null ==> Took(old(aof.file), aof.file, Encode(argv), aof.room, ok))
    ensures forall s | s in old(repl.replicas) :: Took(old(s.sent), s.sent, Encode(argv), s.lifetime, s in repl.replicas)
    ensures forall s | s in repl.replicas :: s in old(repl.replicas)
  {
    hide Took, Encode;
    ok := true;
    if aof != null {
      ok := aof.Append(argv);
    }
    if repl.count > 0 {
      var bytes := EncodeCommand([], argv);
      assert bytes == Encode(argv);
      repl.Propagate(bytes);
    }
  }

  /**
   * One command of the connection loop: the fast path or dispatch, the reply, a flagged command to
   * the log if there is one, and to every replica. Whatever the memory limit, the store and the
   * outcome are those of dispatch. `reason` is what the system says when the log cannot be written.
   */
  method ServeAndPropagate(st: Store, aof: Aof?, repl: Registry, argv: Argv, sofar: Bytes, resp3: bool, reason: Bytes,
                           now: nat, c: ScoreText)
    returns (out: Bytes, isWrite: bool, quit: bool, ghost reply: Bytes, ghost done: bool, ghost logged: bool)
    requires st.Valid() && repl.Valid() && argv != [] && FastPath.Addressable(Live(st.Contents(), now))
    modifies st, st.shards, (set s | s in st.shards :: s.pol), aof, repl, set s | s in repl.replicas
    ensures st.Valid() && repl.Valid() && |st.shards| == |old(st.shards)| > 0
    ensures st.shards == old(st.shards) || (fresh(st.shards) && forall s | s in st.shards :: fresh(s.pol))
    ensures Answered(old(st.Images()), st.Images(), st.Cfg(), argv, now, c, resp3, sofar, reply, isWrite, done)
    ensures out == reply + Complaint(!logged, reason, resp3) && quit == (done || !logged)
    ensures st.maxmemory == 0 ==> Refers(old(st.Contents()), st.Contents(), argv, now, c, isWrite)
    ensures aof == null ==> logged
    ensures aof != null ==> Passed(isWrite, old(aof.file), aof.file, argv, aof.room, true, logged)
    ensures forall s | s in old(repl.replicas) :: Passed(isWrite, old(s.sent), s.sent, argv, s.lifetime, true, s in repl.replicas)
    ensures forall s | s in repl.replicas :: s in old(repl.replicas)
  {
    hide Took, Encode, Answered, Refers, Live, Store.Valid, Store.Contents, Store.Images, Shard.Valid, Encoded,
         FastPath.Addressable;
    out, isWrite, quit := ServeOne(st, argv, sofar, resp3, now, c);
    reply, done, logged := out, quit, true;
    if isWrite && (aof != null || repl.count > 0) {
      var ok := PassOn(aof, repl, argv);
      logged := ok;
      if !ok {
        out := WriteError(out, Ascii("ERR aof write failed: ") + reason, resp3);
        quit := true;
      }
    }
  }

  /** The fast path if it takes the command, dispatch otherwise. */
  method ServeOne(st: Store, argv: Argv, sofar: Bytes, resp3: bool, now: nat, c: ScoreText)
    returns (out: Bytes, isWrite: bool, quit: bool)
    requires st.Valid() && argv != [] && FastPath.Addressable(Live(st.Contents(), now))
    modifies st, st.shards, set s | s in st.shards :: s.pol
    ensures st.Valid() && |st.shards| == |old(st.shards)| > 0
    ensures st.shards == old(st.shards) || (fresh(st.shards) && forall s | s in st.shards :: fresh(s.pol))
    ensures Answered(old(st.Images()), st.Images(), st.Cfg(), argv, now, c, resp3, sofar, out, isWrite, quit)
    ensures st.maxmemory == 0 ==> Refers(old(st.Contents()), st.Contents(), argv, now, c, isWrite)
  {
    hide Store.Valid, Store.Contents, Store.Images, Shard.Valid, Dispatch, Encoded, Live, Apply, StoreStep, FastPath.Addressable,
         FastPath.PlanOn, Eval;
    st.ContentsOfImages();
    ghost var db, ims, cfg := st.Contents(), st.Images(), st.Cfg();
    var handled;
    handled, out := FastPath.ServeFast(st, argv, sofar, resp3, now, c);
    match handled {
      case Some(w) =>
        isWrite, quit := w, false;
        SameFlag(db, ims, cfg, argv, now, c);
      case None =>
        var o := FastPath.RunPlan(st, Dispatch(argv, now, c), now);
        isWrite, quit := o.persist, o.quit;
        if HasWireForm(o.reply) {
          out := sofar + Encoded(o.reply, resp3);
        }
    }
  }

  /** The fast commands are flagged alike on the store and on the reference. */
  lemma SameFlag(db: Db, ims: seq<Image>, cfg: Setup, argv: Argv, now: nat, c: ScoreText)
    requires argv != [] && |ims| > 0 && db == ContentsOf(ims, cfg)
    requires FastPath.FastCall(argv).Some? || (|argv| == 1 && Named(Upper(argv[0]), "PING"))
    ensures FastPath.ExecuteOn(ims, cfg, argv, now, c).1 == Execute(db, argv, now, c).1
  {
    hide FastPath.ExecuteOn, Execute, Apply, Ascii, Upper, CallImage, PurgedImages, Home, ContentsOf, FastPath.FastOutcome;
    if FastPath.FastCall(argv).Some? {
      FastPath.ExecuteOfFast(db, argv, now, c);
      FastPath.ExecuteOnFast(ims, cfg, argv, now, c);
    } else {
      FastPath.ExecuteOfPing(db, argv, now, c);
      FastPath.ExecuteOnPing(ims, cfg, argv, now, c);
    }
  }

  /** `SYNC` while no write is in flight: dump, send, register. */
  method ServeSync(st: Store, repl: Registry, sock: Socket, now: nat, c: ScoreText)
    returns (ghost cmds: seq<Argv>, ghost keys: seq<Bytes>)
    requires st.Valid() && repl.Valid() && sock !in repl.replicas
    modifies repl, sock
    ensures repl.Valid() && st.Contents() == old(st.Contents())
    ensures Snapshot.IsDump(cmds, keys, Live(st.Contents(), now), c)
    ensures Took(old(sock.sent), sock.sent, EncodeAll(cmds), sock.lifetime, sock in repl.replicas)
    ensures repl.replicas == if sock in repl.replicas then old(repl.replicas) + [sock] else old(repl.replicas)
  {
    hide Store.Valid, Shard.Valid, Store.Contents, Live, Took, EncodeAll, Snapshot.IsDump;
    var snapshot;
    snapshot, cmds, keys := Snapshot.DumpCommands(st, now, c);
    repl.AddReplicaWithSnapshot(sock, snapshot);
  }

  // ---------- what the primary does is a run of the protocol ----------

  /** The step system's view of a primary at rest and one socket, right from time `since` on. */
  ghost predicate Mirrors(sys: System, contents: Db, since: nat, sent: Bytes, registered: bool) {
    Live(contents, since) == sys.primary && sent == sys.wire && sys.linked == registered && sys.flight.None?
  }

  /** The reference keyspace does what the store shows. */
  lemma {:induction false} ServedAlike(sys: System, before: Db, since: nat, argv: Argv, now: nat, c: ScoreText)
    requires Served(sys, c) && Timeless(argv) && since <= now && Live(before, since) == sys.primary
    ensures argv != []
    ensures var (a, o) := Execute(before, argv, now, c); var (b, q) := Execute(sys.primary, argv, now, c);
            o == q && Live(a, now) == b
  {
    hide Eval, Dispatch, Live, Named, IsExpiryOption, ExecuteAll, Fits;
    ExecuteAllIsTimeless(map[], sys.hist, sys.hist, c);
    LiveLater(before, since, now);
    LiveIsAll(sys.primary, now);
    EvalSeesLive(before, sys.primary, Dispatch(argv, now, c), now);
    ExecuteIsTimeless(sys.primary, argv, now, now, c);
    LiveIsAll(Execute(sys.primary, argv, now, c).0, now);
  }

  /** From the registration on the wire carries the whole stream up to the byte the socket fails at. */
  ghost predicate Delivered(s: System, lifetime: Option<nat>) {
    s.registered ==>
      var all := EncodeAll(Stream(s));
      Holds(s.wire, lifetime, all) && (s.linked <==> Accepted(lifetime, 0, |all|) == |all|)
  }

  lemma {:induction false} PropagateDelivers(s: System, n: nat, lifetime: Option<nat>, c: ScoreText)
    requires Invariant(s, c) && Delivered(s, lifetime) && Enabled(s, Propagate(n), c)
    requires s.linked ==> n == Accepted(lifetime, |s.wire|, |Encode(s.flight.value)|)
    ensures Delivered(Next(s, Propagate(n), c), lifetime)
  {
    hide Served, Accounted, Followed, Stream, Encode, EncodeAll, Streams.Drain;
    if s.registered {
      var argv, s' := s.flight.value, Next(s, Propagate(n), c);
      PropagateLate(s, Propagate(n), c);
      EncodeAllAppend(Stream(s), [argv]);
      OneFrame(argv);
      HoldsMore(s.wire, lifetime, EncodeAll(Stream(s)), Encode(argv));
    }
  }

  /** Serving and propagating without interruption is one or two steps. */
  lemma {:induction false} ServeIsSteps(acts: seq<Action>, sys: System, argv: Argv, now: nat, c: ScoreText, since: nat,
                                        before: Db, after: Db, sent: Bytes, sent': Bytes, lifetime: Option<nat>, reg: bool, reg': bool)
    returns (acts': seq<Action>, sys': System)
    requires Reaches(acts, sys, c) && Timeless(argv) && Fits(argv) && since <= now
    requires Mirrors(sys, before, since, sent, reg) && Delivered(sys, lifetime)
    requires Live(after, now) == Live(Execute(before, argv, now, c).0, now)
    requires Passed(Execute(before, argv, now, c).1.persist && reg, sent, sent', argv, lifetime, reg, reg')
    ensures Reaches(acts', sys', c) && Mirrors(sys', after, now, sent', reg') && Delivered(sys', lifetime)
    ensures Onward(sys, sys', [Timed(argv, now)])
    ensures Execute(before, argv, now, c).1.persist == IsLogged(sys.primary, Timed(argv, now), c)
  {
    hide Execute, Live, Encode, EncodeAll, Timeless, Fits, Reaches, Served, Accounted, Sent, Followed, Streams.Drain, Carries,
         Holds, Stream;
    EveryRunKeepsInvariant(acts, sys, c);
    ServedAlike(sys, before, since, argv, now, c);
    var serve := Serve(argv, now);
    ReachesNext(acts, sys, serve, c);
    acts', sys' := acts + [serve], Next(sys, serve, c);
    SameStream(sys, sys', lifetime);
    if sys'.flight.Some? {
      var n: nat := if reg then Accepted(lifetime, |sent|, |Encode(argv)|) else 0;
      EveryRunKeepsInvariant(acts', sys', c);
      PropagateDelivers(sys', n, lifetime, c);
      ReachesNext(acts', sys', Propagate(n), c);
      acts', sys' := acts' + [Propagate(n)], Next(sys', Propagate(n), c);
    }
  }

  lemma SameStream(s: System, s': System, lifetime: Option<nat>)
    requires Delivered(s, lifetime) && s'.registered == s.registered && s'.linked == s.linked && s'.wire == s.wire
    requires s'.dump == s.dump && s'.twice == s.twice && s'.feed == s.feed
    ensures Delivered(s', lifetime)
  {
  }

  /** Served some more, and did nothing else; before the dump or after the registration nothing races. */
  ghost predicate Onward(sys: System, sys': System, more: seq<Timed>) {
    && sys'.hist == sys.hist + more
    && sys'.dumped == sys.dumped && sys'.dump == sys.dump && sys'.registered == sys.registered
    && sys'.twice == sys.twice
    && (sys.dumped.None? || sys.registered ==> sys'.lost == sys.lost)
  }

  /** So is dumping and registering without interruption. */
  lemma {:induction false} SyncIsSteps(acts: seq<Action>, sys: System, cmds: seq<Argv>, keys: seq<Bytes>, now: nat, c: ScoreText,
                                       since: nat, contents: Db, sent': Bytes, lifetime: Option<nat>, reg': bool)
    returns (acts': seq<Action>, sys': System)
    requires Reaches(acts, sys, c) && sys.dumped.None? && since <= now && Mirrors(sys, contents, since, [], false)
    requires Snapshot.IsDump(cmds, keys, Live(contents, now), c) && Copyable(Live(contents, now), c)
    requires Took([], sent', EncodeAll(cmds), lifetime, reg')
    ensures Reaches(acts', sys', c) && Mirrors(sys', contents, now, sent', reg') && Delivered(sys', lifetime)
    ensures sys'.hist == sys.hist && sys'.registered && sys'.lost == sys'.twice == sys'.feed == []
    ensures sys'.dumped == Some(|sys.hist|) && sys'.dump == cmds
  {
    hide Live, EncodeAll, Timeless, ExecuteAll, Fits, Snapshot.IsDump, Snapshot.Printable, Loggable, Reaches, Sent, Followed,
         Streams.Drain, SnapshotSizes.DumpFits;
    EveryRunKeepsInvariant(acts, sys, c);
    ExecuteAllIsTimeless(map[], sys.hist, sys.hist, c);
    LiveLater(contents, since, now);
    LiveIsAll(sys.primary, now);
    PermanentIsMachine(sys.primary);
    SnapshotSizes.DumpFitsIff(cmds, keys, sys.primary, c);
    var dump := Dump(cmds, keys);
    ReachesNext(acts, sys, dump, c);
    var s1 := Next(sys, dump, c);
    var n := Accepted(lifetime, 0, |EncodeAll(cmds)|);
    ReachesNext(acts + [dump], s1, Register(n), c);
    acts', sys' := acts + [dump] + [Register(n)], Next(s1, Register(n), c);
    assert Stream(sys') == cmds;
  }

  /** A dataset that a snapshot can carry. */
  ghost predicate Copyable(db: Db, c: ScoreText) {
    SnapshotSizes.DumpFits(db, c) && forall k | k in db :: Snapshot.Printable(db[k].value, c)
  }

  lemma PermanentIsMachine(db: Db)
    requires Permanent(db)
    ensures SnapshotSizes.MachineTimes(db)
  {
  }

  // ---------- the replica ----------

  /** The inner loop of `sync_once`: parse and apply until the buffer holds no whole frame. */
  method ApplyBuffer(st: Store, buf: Bytes, done: nat, clock: nat -> nat, c: ScoreText,
                     ghost db: Db, ghost ims: seq<Image>, ghost before: seq<Argv>)
    returns (rest: Bytes, applied: nat, error: Option<ProtocolError>)
    requires st.Valid() && Monotone(clock) && done == |before|
    requires |st.shards| > 0 && Stands(st.Images(), ims, st.Cfg(), before, clock, c)
    requires st.maxmemory == 0 ==> Shows(st.Contents(), db, before, clock, c, LastTime(clock, done))
    modifies st, st.shards, set s | s in st.shards :: s.pol
    ensures st.Valid()
    ensures st.shards == old(st.shards) || (fresh(st.shards) && forall s | s in st.shards :: fresh(s.pol))
    ensures var d := Streams.Drain(buf); rest == buf[d.used..] && error == d.error && applied == done + |d.cmds|
    ensures st.maxmemory == 0 ==>
              Shows(st.Contents(), db, before + Streams.Drain(buf).cmds, clock, c, LastTime(clock, applied))
    ensures |st.shards| == |old(st.shards)| && Stands(st.Images(), ims, st.Cfg(), before + Streams.Drain(buf).cmds, clock, c)
  {
    hide Store.Valid, Shard.Valid, Store.Contents, Store.Images, Shows, Stands, Eval, Live, Dispatch, ParseFrame, Streams.Drain, Streams.Draining;
    var cursor: nat := 0;
    ghost var cmds: seq<Argv> := [];
    applied, error := done, None;
    Streams.DrainStart(buf);
    assert before + cmds == before;
    while true
      invariant cursor <= |buf| && error.None? && applied == done + |cmds| && Streams.Draining(buf, cursor, cmds)
      invariant st.Valid()
      invariant st.shards == old(st.shards) || (fresh(st.shards) && forall s | s in st.shards :: fresh(s.pol))
      invariant st.maxmemory == 0 ==> Shows(st.Contents(), db, before + cmds, clock, c, LastTime(clock, applied))
      invariant |st.shards| == |old(st.shards)| && Stands(st.Images(), ims, st.Cfg(), before + cmds, clock, c)
      decreases |buf| - cursor
    {
      Streams.DrainStep(buf, cursor, cmds);
      var p := ParseCommand(buf[cursor..]);
      match p {
        case Parsed(argv, consumed) =>
          cursor := cursor + consumed;
          if argv != [] {
            ApplyCommand(st, argv, clock(applied), c, db, ims, before + cmds, clock);
            applied := applied + 1;
            assert before + cmds + [argv] == before + (cmds + [argv]);
            cmds := cmds + [argv];
          } else {
            assert cmds + Streams.Keep(argv) == cmds;
          }
        case NeedMore => break;
        case Bad(e) =>
          error := Some(e);
          break;
      }
    }
    rest := buf[cursor..];
  }

  /** No command has been applied yet. */
  lemma NoTime(clock: nat -> nat)
    ensures LastTime(clock, 0) == 0
  {
  }

  /** `cmds` came with the first `i` reads, and `buf` is what is left of them. */
  ghost predicate Feeding(chunks: seq<Bytes>, i: nat, buf: Bytes, cmds: seq<Argv>) {
    i <= |chunks| &&
    var f, g := Streams.Feed([], chunks), Streams.Feed(buf, chunks[i..]);
    f.cmds == cmds + g.cmds && f.error == g.error
  }

  lemma {:induction false} FeedStart(chunks: seq<Bytes>)
    ensures Feeding(chunks, 0, [], [])
  {
    hide Streams.Drain, Streams.Feed;
    assert chunks[0..] == chunks;
    assert [] + Streams.Feed([], chunks).cmds == Streams.Feed([], chunks).cmds;
  }

  lemma {:induction false} FeedNext(chunks: seq<Bytes>, i: nat, buf: Bytes, cmds: seq<Argv>)
    requires i < |chunks| && Feeding(chunks, i, buf, cmds)
    ensures var d := Streams.Drain(buf + chunks[i]);
            if d.error.Some? then Streams.Feed([], chunks).cmds == cmds + d.cmds && Streams.Feed([], chunks).error == d.error
            else Feeding(chunks, i + 1, (buf + chunks[i])[d.used..], cmds + d.cmds)
  {
    hide Streams.Drain;
    assert chunks[i..][1..] == chunks[i + 1..];
    var d := Streams.Drain(buf + chunks[i]);
    var g := Streams.Feed((buf + chunks[i])[d.used..], chunks[i + 1..]);
    assert cmds + (d.cmds + g.cmds) == (cmds + d.cmds) + g.cmds;
  }

  lemma {:induction false} FeedEnd(chunks: seq<Bytes>, buf: Bytes, cmds: seq<Argv>)
    requires Feeding(chunks, |chunks|, buf, cmds)
    ensures Streams.Feed([], chunks).cmds == cmds && Streams.Feed([], chunks).error.None?
  {
    assert chunks[|chunks|..] == [];
    assert cmds + [] == cmds;
  }

  /** `sync_once` after the handshake: the reads up to the end of the stream, each applied in turn. */
  method SyncOnce(st: Store, chunks: seq<Bytes>, clock: nat -> nat, c: ScoreText) returns (applied: nat, corrupt: bool)
    requires st.Valid() && Monotone(clock)
    modifies st, st.shards, set s | s in st.shards :: s.pol
    ensures st.Valid()
    ensures var f := Streams.Feed([], chunks); applied == |f.cmds| && corrupt == f.error.Some?
    ensures st.maxmemory == 0 ==>
              Shows(st.Contents(), old(st.Contents()), Streams.Feed([], chunks).cmds, clock, c, LastTime(clock, applied))
    ensures |st.shards| == |old(st.shards)| > 0
    ensures Stands(st.Images(), old(st.Images()), st.Cfg(), Streams.Feed([], chunks).cmds, clock, c)
  {
    hide Store.Valid, Shard.Valid, Store.Contents, Store.Images, Shows, Stands, Streams.Drain, Streams.Feed, Feeding,
         Monotone, LastTime;
    st.ContentsOfImages();
    ghost var db, ims := st.Contents(), st.Images();
    StandsStart(ims, st.Cfg(), clock, c);
    ghost var cmds: seq<Argv> := [];
    var buf: Bytes := [];
    applied, corrupt := 0, false;
    ShowsStart(db, clock, c);
    NoTime(clock);
    FeedStart(chunks);
    for i := 0 to |chunks|
      invariant st.Valid() && applied == |cmds|
      invariant st.shards == old(st.shards) || (fresh(st.shards) && forall s | s in st.shards :: fresh(s.pol))
      invariant st.maxmemory == 0 ==> Shows(st.Contents(), db, cmds, clock, c, LastTime(clock, applied))
      invariant |st.shards| == |old(st.shards)| > 0 && Stands(st.Images(), ims, st.Cfg(), cmds, clock, c)
      invariant Feeding(chunks, i, buf, cmds)
    {
      FeedNext(chunks, i, buf, cmds);
      var data := buf + chunks[i];
      var error;
      buf, applied, error := ApplyBuffer(st, data, applied, clock, c, db, ims, cmds);
      cmds := cmds + Streams.Drain(data).cmds;
      if error.Some? {
        corrupt := true;
        return;
      }
    }
    FeedEnd(chunks, buf, cmds);
  }

  // ---------- the two ends together ----------

  /** The reads carry the first `m` bytes of the wire, however they are cut. */
  lemma {:induction false} ReadsArrive(acts: seq<Action>, s: System, m: nat, chunks: seq<Bytes>, c: ScoreText) returns (j: nat)
    requires Reaches(acts, s, c) && s.dumped.Some? && m <= |s.wire| && Streams.Concat(chunks) == s.wire[..m]
    ensures j <= |Stream(s)| && Streams.Feed([], chunks) == Streams.Drain(s.wire[..m])
    ensures Streams.Drain(s.wire[..m]).cmds == Stream(s)[..j] && Streams.Drain(s.wire[..m]).error.None?
    ensures s.linked && m == |s.wire| ==> j == |Stream(s)|
  {
    hide Reaches, Served, Accounted, Sent, Followed, Streams.Drain, Streams.Feed, Streams.LinesBounded, AllTimeless, Stream;
    EveryRunKeepsInvariant(acts, s, c);
    j := ArrivedIsPrefix(s, m, c);
    Streams.ChunkingIndependence(s.wire[..m]);
  }

  /**
   * The bytes any reachable primary has written, cut after any of them and read in any pieces: once
   * they hold the whole snapshot, and if nothing harmful raced it, applying them gives a moment of
   * the primary's past.
   */
  lemma {:induction false} SessionFollows(acts: seq<Action>, s: System, m: nat, chunks: seq<Bytes>, clock: nat -> nat, c: ScoreText)
    requires Carried(acts, s, m, chunks, c)
    ensures Streams.Feed([], chunks).error.None? && s.dumped.value <= MomentAfter(s, chunks, c) <= |s.hist|
    ensures var replay := Stamp(Streams.Feed([], chunks).cmds, clock);
            Runnable(replay) && ExecuteAll(map[], replay, c) == Moment(s, MomentAfter(s, chunks, c), c)
    ensures s.linked && m == |s.wire| && s.flight.None? ==> MomentAfter(s, chunks, c) == |s.hist|
  {
    hide Reaches, ExecuteAll, Moment, MomentOf, AllTimeless, Streams.Drain, Streams.Feed, Streams.LinesBounded, Followed, Served,
         Accounted, Harmless, EncodeAll;
    var j := ReadsArrive(acts, s, m, chunks, c);
    var cmds := Streams.Feed([], chunks).cmds;
    ArrivedIsPast(s, j, c);
    assert [] + cmds == cmds;
    AppliedMore([], cmds, clock, c);
    NothingApplied(c);
  }

  /** The moment that the commands of the reads lead to. */
  ghost function MomentAfter(s: System, chunks: seq<Bytes>, c: ScoreText): nat {
    MomentOf(s, Max(0, |Streams.Feed([], chunks).cmds| - |s.dump|), c)
  }

  /** The reads carry the first `m` bytes of the wire, and the whole snapshot among them. */
  ghost predicate Carried(acts: seq<Action>, s: System, m: nat, chunks: seq<Bytes>, c: ScoreText) {
    && Reaches(acts, s, c) && Unharmed(s, c)
    && m <= |s.wire| && Streams.Concat(chunks) == s.wire[..m]
    && |s.dump| <= |Streams.Feed([], chunks).cmds|
  }

  lemma {:induction false} NothingApplied(c: ScoreText)
    ensures ExecuteAll(map[], AtZero([]), c) == map[]
  {
  }

  /** From then on the store shows that moment. */
  lemma {:induction false} MomentShows(contents: Db, s: System, i: nat, cmds: seq<Argv>, clock: nat -> nat, c: ScoreText, from: nat)
    requires Shows(contents, map[], cmds, clock, c, from) && Served(s, c) && i <= |s.hist|
    requires Runnable(Stamp(cmds, clock)) && ExecuteAll(map[], Stamp(cmds, clock), c) == Moment(s, i, c)
    ensures forall t | from <= t :: Live(contents, t) == Moment(s, i, c)
  {
    hide Live, Timeless, ExecuteAll, Fits;
    Recovery.ShownFromThen(contents, s.hist[..i], cmds, clock, c, from);
  }

  /** A replica that starts empty and applies one session, whatever the network did to it. */
  method RunReplica(st: Store, chunks: seq<Bytes>, clock: nat -> nat, c: ScoreText,
                    ghost acts: seq<Action>, ghost s: System, ghost m: nat)
    requires st.Valid() && st.maxmemory == 0 && st.Contents() == map[] && Monotone(clock)
    requires Carried(acts, s, m, chunks, c)
    modifies st, st.shards, set s | s in st.shards :: s.pol
    ensures st.Valid() && s.dumped.value <= MomentAfter(s, chunks, c) <= |s.hist|
    ensures forall t | LastTime(clock, |Streams.Feed([], chunks).cmds|) <= t ::
              Live(st.Contents(), t) == Moment(s, MomentAfter(s, chunks, c), c)
    ensures s.linked && m == |s.wire| && s.flight.None? ==> MomentAfter(s, chunks, c) == |s.hist|
  {
    hide MomentAfter, Store.Valid, Shard.Valid, Store.Contents, Store.Images, Live, Shows, Stands, Reaches, ExecuteAll, Moment, Streams.Feed,
         Accounted, Harmless, Served;
    SessionFollows(acts, s, m, chunks, clock, c);
    var applied, corrupt := SyncOnce(st, chunks, clock, c);
    MomentShows(st.Contents(), s, MomentAfter(s, chunks, c), Streams.Feed([], chunks).cmds, clock, c, LastTime(clock, applied));
  }
}
