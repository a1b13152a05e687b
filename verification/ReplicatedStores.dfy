/** A primary store with its log, registry and socket, and a replica store: from a script to what the others show. */
module ReplicatedStores {
  import opened Basics
  import opened Resp
  import opened Frames
  import opened Keyspace
  import opened Commands
  import opened CommandLog
  import opened ExpiryFree
  import opened Persistence
  import opened Shards
  import opened Stores
  import opened Replication
  import opened ReplicaSession
  import FastPath
  import Recovery
  import Snapshot
  import Streams

  /** Commands that name no time, within the parser's limits, at times that do not go back. */
  ghost predicate Script(cmds: seq<Timed>, since: nat) {
    && (forall i | 0 <= i < |cmds| :: Timeless(cmds[i].argv) && Fits(cmds[i].argv) && since <= cmds[i].now)
    && (forall i, j | 0 <= i < j < |cmds| :: cmds[i].now <= cmds[j].now)
    && Runnable(cmds)
  }

  /** No stored string outgrows the address space on the way. */
  ghost predicate Addressed(db: Db, cmds: seq<Timed>, c: ScoreText) {
    Runnable(cmds) && forall i | 0 <= i <= |cmds| :: FastPath.Addressable(ExecuteAll(db, cmds[..i], c))
  }

  function TimeAt(cmds: seq<Timed>, i: nat, since: nat): nat
    requires i <= |cmds|
  {
    if i == 0 then since else cmds[i - 1].now
  }

  /** The primary's keyspace is as addressable as the script promises. */
  lemma {:induction false} AddressedNow(sys: System, contents: Db, since: nat, now: nat, sent: Bytes, reg: bool, c: ScoreText)
    requires Served(sys, c) && Mirrors(sys, contents, since, sent, reg) && since <= now && FastPath.Addressable(sys.primary)
    ensures FastPath.Addressable(Live(contents, now))
  {
    hide Live, ExecuteAll, Timeless, Fits, FastPath.Addressable;
    ExecuteAllIsTimeless(map[], sys.hist, sys.hist, c);
    LiveLater(contents, since, now);
    LiveIsAll(sys.primary, now);
  }

  /** The protocol's view of the primary and its socket, and the log file of everything served. */
  ghost predicate Follows(sys: System, contents: Db, since: nat, sock: Socket, linked: bool, aof: Aof, c: ScoreText)
    reads sock, aof
  {
    && Mirrors(sys, contents, since, sock.sent, linked) && Delivered(sys, sock.lifetime)
    && Runnable(sys.hist) && Holds(aof.file, aof.room, Recovery.LogFile(sys.hist, c))
  }

  /** The log file grows by a flagged command, as far as there is room. */
  lemma {:induction false} LogKept(hist: seq<Timed>, db: Db, h: Timed, file: Bytes, file': Bytes, room: Option<nat>, ok: bool, c: ScoreText)
    requires Runnable(hist) && db == ExecuteAll(map[], hist, c) && h.argv != [] && Holds(file, room, Recovery.LogFile(hist, c))
    requires Passed(IsLogged(db, h, c), file, file', h.argv, room, true, ok)
    ensures Runnable(hist + [h]) && Holds(file', room, Recovery.LogFile(hist + [h], c))
  {
    hide ExecuteAll, Logged, IsLogged, Encode, EncodeAll, Holds;
    LoggedSnoc(map[], hist, h, c);
    if IsLogged(db, h, c) {
      var cmds := CommandsOf(Logged(map[], hist, c));
      EncodeAllAppend(cmds, [h.argv]);
      OneFrame(h.argv);
      HoldsMore(file, room, EncodeAll(cmds), Encode(h.argv));
    } else {
      assert CommandsOf(Logged(map[], hist, c)) + [] == CommandsOf(Logged(map[], hist, c));
    }
  }

  /** One command of the primary, with its steps in the protocol. */
  method ServeStep(st: Store, aof: Aof, repl: Registry, sock: Socket, h: Timed, c: ScoreText,
                   ghost acts: seq<Action>, ghost sys: System, ghost since: nat)
    returns (ghost acts': seq<Action>, ghost sys': System)
    requires st.Valid() && st.maxmemory == 0 && repl.Valid()
    requires Timeless(h.argv) && Fits(h.argv) && since <= h.now && FastPath.Addressable(sys.primary)
    requires Reaches(acts, sys, c) && Follows(sys, st.Contents(), since, sock, sock in repl.replicas, aof, c)
    modifies st, st.shards, (set s | s in st.shards :: s.pol), aof, repl, set s | s in repl.replicas
    ensures st.Valid() && repl.Valid() && |st.shards| == |old(st.shards)|
    ensures st.shards == old(st.shards) || (fresh(st.shards) && forall s | s in st.shards :: fresh(s.pol))
    ensures forall s | s in repl.replicas :: s in old(repl.replicas)
    ensures Reaches(acts', sys', c) && Follows(sys', st.Contents(), h.now, sock, sock in repl.replicas, aof, c)
    ensures Onward(sys, sys', [h])
  {
    hide Store.Valid, Store.Contents, Store.Images, Shard.Valid, Live, Execute, Reaches, Mirrors, Accounted, Sent, Holds,
         Followed, Took, Answered, Encode, FastPath.Addressable, Fits, Named, IsExpiryOption, Delivered, Complaint, Recovery.LogFile;
    EveryRunKeepsInvariant(acts, sys, c);
    AddressedNow(sys, st.Contents(), since, h.now, sock.sent, sock in repl.replicas, c);
    ghost var before, sent, reg, file := st.Contents(), sock.sent, sock in repl.replicas, aof.file;
    var out, isWrite, quit;
    ghost var reply, done, logged;
    out, isWrite, quit, reply, done, logged := ServeAndPropagate(st, aof, repl, h.argv, [], false, [], h.now, c);
    acts', sys' := ServeIsSteps(acts, sys, h.argv, h.now, c, since, before, st.Contents(),
                                sent, sock.sent, sock.lifetime, reg, sock in repl.replicas);
    LogKept(sys.hist, sys.primary, h, file, aof.file, aof.room, logged, c);
  }

  lemma {:induction false} OnwardNext(sys: System, mid: System, end: System, cmds: seq<Timed>, i: nat)
    requires i < |cmds| && Onward(sys, mid, cmds[..i]) && Onward(mid, end, [cmds[i]])
    ensures Onward(sys, end, cmds[..i + 1])
  {
    assert cmds[..i + 1] == cmds[..i] + [cmds[i]];
  }

  /** The keyspace after the first commands of the script. */
  lemma {:induction false} PrimaryAfter(sys: System, sys': System, more: seq<Timed>, c: ScoreText)
    requires Served(sys, c) && Served(sys', c) && Onward(sys, sys', more) && Runnable(more)
    ensures sys'.primary == ExecuteAll(sys.primary, more, c)
  {
    hide ExecuteAll, Timeless, Fits;
    ExecuteAllAppend(map[], sys.hist, more, c);
  }

  lemma {:induction false} AddressedAt(db: Db, cmds: seq<Timed>, i: nat, c: ScoreText)
    requires Addressed(db, cmds, c) && i <= |cmds|
    ensures Runnable(cmds[..i]) && FastPath.Addressable(ExecuteAll(db, cmds[..i], c))
  {
  }

  /** A script of commands, one after the other; where a connection was closed the next one goes on. */
  method RunCommands(st: Store, aof: Aof, repl: Registry, sock: Socket, cmds: seq<Timed>, c: ScoreText,
                     ghost acts: seq<Action>, ghost sys: System, ghost since: nat)
    returns (ghost acts': seq<Action>, ghost sys': System)
    requires st.Valid() && st.maxmemory == 0 && repl.Valid() && Script(cmds, since) && Addressed(sys.primary, cmds, c)
    requires Reaches(acts, sys, c) && Follows(sys, st.Contents(), since, sock, sock in repl.replicas, aof, c)
    modifies st, st.shards, (set s | s in st.shards :: s.pol), aof, repl, set s | s in repl.replicas
    ensures st.Valid() && repl.Valid() && |st.shards| == |old(st.shards)|
    ensures st.shards == old(st.shards) || (fresh(st.shards) && forall s | s in st.shards :: fresh(s.pol))
    ensures forall s | s in repl.replicas :: s in old(repl.replicas)
    ensures old(repl.replicas) == [] ==> repl.replicas == []
    ensures Reaches(acts', sys', c) && Onward(sys, sys', cmds)
    ensures Follows(sys', st.Contents(), TimeAt(cmds, |cmds|, since), sock, sock in repl.replicas, aof, c)
  {
    hide Store.Valid, Store.Contents, Store.Images, Shard.Valid, Live, ExecuteAll, Reaches, Follows, Onward, Served, Accounted, Sent,
         Followed, Addressed, FastPath.Addressable, Fits, Timeless;
    acts', sys' := acts, sys;
    NothingServed(sys);
    assert cmds[..0] == [];
    for i := 0 to |cmds|
      invariant st.Valid() && repl.Valid() && |st.shards| == |old(st.shards)|
      invariant st.shards == old(st.shards) || (fresh(st.shards) && forall s | s in st.shards :: fresh(s.pol))
      invariant forall s | s in repl.replicas :: s in old(repl.replicas)
      invariant Reaches(acts', sys', c) && Onward(sys, sys', cmds[..i])
      invariant Follows(sys', st.Contents(), TimeAt(cmds, i, since), sock, sock in repl.replicas, aof, c)
    {
      ghost var mid := sys';
      EveryRunKeepsInvariant(acts, sys, c);
      EveryRunKeepsInvariant(acts', sys', c);
      AddressedAt(sys.primary, cmds, i, c);
      PrimaryAfter(sys, mid, cmds[..i], c);
      acts', sys' := ServeStep(st, aof, repl, sock, cmds[i], c, acts', mid, TimeAt(cmds, i, since));
      OnwardNext(sys, mid, sys', cmds, i);
    }
    assert cmds[..|cmds|] == cmds;
    assert repl.replicas != [] ==> repl.replicas[0] in old(repl.replicas);
  }

  lemma NothingServed(sys: System)
    ensures Onward(sys, sys, [])
  {
    assert sys.hist + [] == sys.hist;
  }

  // ---------- the whole session ----------

  /** Pieces of the given sizes, and a last one with the rest. */
  method Chop(bytes: Bytes, sizes: seq<nat>) returns (chunks: seq<Bytes>)
    ensures Streams.Concat(chunks) == bytes
    decreases |sizes|
  {
    if sizes == [] || sizes[0] > |bytes| {
      chunks := [bytes];
      assert chunks[1..] == [];
      assert Streams.Concat(chunks) == bytes + Streams.Concat([]);
    } else {
      var rest := Chop(bytes[sizes[0]..], sizes[1..]);
      chunks := [bytes[..sizes[0]]] + rest;
      assert chunks[1..] == rest;
    }
  }

  lemma {:induction false} StartFollows(sock: Socket, aof: Aof, c: ScoreText)
    requires sock.sent == [] && aof.file == []
    ensures Follows(START, map[], 0, sock, false, aof, c)
  {
    assert Live(map[], 0) == map[];
    assert Recovery.LogFile([], c) == [];
  }

  lemma {:induction false} CopyableNow(s: System, contents: Db, since: nat, now: nat, c: ScoreText)
    requires Served(s, c) && Mirrors(s, contents, since, [], false) && since <= now && Copyable(s.primary, c)
    ensures Copyable(Live(contents, now), c)
  {
    hide Live, ExecuteAll, Timeless, Fits, Copyable;
    ExecuteAllIsTimeless(map[], s.hist, s.hist, c);
    LiveLater(contents, since, now);
    LiveIsAll(s.primary, now);
  }

  lemma {:induction false} PrimaryIs(s: System, hist: seq<Timed>, c: ScoreText)
    requires Served(s, c) && s.hist == hist
    ensures Runnable(hist) && s.primary == ExecuteAll(map[], hist, c)
  {
  }

  /** A state right after an undisturbed handshake. */
  ghost predicate JustJoined(s: System, hist: seq<Timed>) {
    s.hist == hist && s.registered && s.lost == s.twice == s.feed == [] && s.dumped == Some(|hist|)
  }

  /** `SYNC`, with its steps in the protocol. */
  method SyncStep(st: Store, ghost aof: Aof, repl: Registry, sock: Socket, at: nat, c: ScoreText,
                  ghost acts: seq<Action>, ghost sys: System, ghost since: nat)
    returns (ghost acts': seq<Action>, ghost sys': System)
    requires st.Valid() && repl.Valid() && repl.replicas == [] && sock.sent == []
    requires Reaches(acts, sys, c) && sys.dumped.None? && since <= at && Copyable(sys.primary, c)
    requires Follows(sys, st.Contents(), since, sock, false, aof, c)
    modifies repl, sock
    ensures repl.Valid() && (repl.replicas == [] || repl.replicas == [sock])
    ensures Reaches(acts', sys', c) && Follows(sys', st.Contents(), at, sock, sock in repl.replicas, aof, c)
    ensures JustJoined(sys', sys.hist) && st.Valid()
  {
    hide Store.Valid, Store.Contents, Store.Images, Shard.Valid, Live, Reaches, Mirrors, Served, Accounted, Sent,
         Followed, Snapshot.IsDump, Copyable, Took, EncodeAll, Delivered, Holds, Recovery.LogFile;
    EveryRunKeepsInvariant(acts, sys, c);
    CopyableNow(sys, st.Contents(), since, at, c);
    ghost var cmds, keys;
    cmds, keys := ServeSync(st, repl, sock, at, c);
    acts', sys' := SyncIsSteps(acts, sys, cmds, keys, at, c, since, st.Contents(), sock.sent, sock.lifetime, sock in repl.replicas);
  }

  lemma {:induction false} BeforeSync(acts: seq<Action>, s: System, before: seq<Timed>, c: ScoreText)
    requires Reaches(acts, s, c) && Onward(START, s, before) && Script(before, 0)
    ensures s.hist == before && s.dumped.None? && s.primary == ExecuteAll(map[], before, c)
  {
    hide Reaches, Accounted, Sent, Followed, ExecuteAll;
    EveryRunKeepsInvariant(acts, s, c);
    assert [] + before == before;
    PrimaryIs(s, before, c);
  }

  lemma {:induction false} AfterSync(acts: seq<Action>, s: System, before: seq<Timed>, c: ScoreText)
    requires Reaches(acts, s, c) && JustJoined(s, before)
    ensures Runnable(before) && s.primary == ExecuteAll(map[], before, c)
  {
    hide Reaches, Accounted, Sent, Followed, ExecuteAll;
    EveryRunKeepsInvariant(acts, s, c);
    PrimaryIs(s, before, c);
  }

  /** What the whole script asks for. */
  ghost predicate Scenario(before: seq<Timed>, at: nat, after: seq<Timed>, c: ScoreText) {
    && Script(before, 0) && Script(after, at) && TimeAt(before, |before|, 0) <= at
    && Copyable(ExecuteAll(map[], before, c), c)
    && Addressed(map[], before, c) && Addressed(ExecuteAll(map[], before, c), after, c)
  }

  lemma {:induction false} KeysOfDump(dump: seq<Argv>, keys: seq<Bytes>, db: Db, c: ScoreText)
    requires Snapshot.IsDump(dump, keys, db, c) && Permanent(db)
    ensures |dump| == |keys| == |db|
  {
    hide Snapshot.DumpSeq, Permanent;
    PartOfDump(dump, keys, db, c, 0);
    Snapshot.CountKeys(keys, db.Keys);
    assert |db.Keys| == |db|;
  }

  /** What a socket that fails at `lifetime` has taken: a dump of the first script's keyspace, and what the second logs. */
  ghost predicate Wired(sent: Bytes, lifetime: Option<nat>, dump: seq<Argv>, keys: seq<Bytes>,
                        before: seq<Timed>, after: seq<Timed>, c: ScoreText) {
    Runnable(before) && Runnable(after) &&
    var db := ExecuteAll(map[], before, c);
    && Snapshot.IsDump(dump, keys, db, c) && |dump| == |keys| == |db|
    && Holds(sent, lifetime, EncodeAll(dump + CommandsOf(Logged(db, after, c))))
  }

  /** A store that shows, when the script is over, what the script builds. */
  ghost predicate ShowsScript(contents: Db, before: seq<Timed>, at: nat, after: seq<Timed>, c: ScoreText) {
    Runnable(before + after) && Live(contents, TimeAt(after, |after|, at)) == ExecuteAll(map[], before + after, c)
  }

  /** The state of the protocol after an undisturbed session. */
  ghost predicate Ended(acts: seq<Action>, s: System, before: seq<Timed>, after: seq<Timed>, c: ScoreText) {
    && Reaches(acts, s, c) && Unharmed(s, c) && s.hist == before + after && s.dumped == Some(|before|)
    && s.lost == s.twice == [] && s.registered && s.flight.None?
  }

  /** Serving on after an undisturbed handshake harms nothing. */
  lemma {:induction false} EndOfSession(acts: seq<Action>, joined: System, s: System, before: seq<Timed>, after: seq<Timed>,
                                        c: ScoreText)
    requires Reaches(acts, s, c) && JustJoined(joined, before) && Onward(joined, s, after) && s.flight.None?
    ensures Ended(acts, s, before, after, c)
  {
    hide Reaches, Served, Accounted, Sent, Followed;
    EveryRunKeepsInvariant(acts, s, c);
    QuietIsHarmless(s, c);
  }

  /** What the socket has taken by then. */
  lemma {:induction false} SessionWired(acts: seq<Action>, s: System, before: seq<Timed>, after: seq<Timed>, lifetime: Option<nat>, c: ScoreText)
    returns (keys: seq<Bytes>)
    requires Ended(acts, s, before, after, c) && Delivered(s, lifetime)
    ensures Wired(s.wire, lifetime, s.dump, keys, before, after, c)
    ensures |s.dump| == |keys| && Carries(s.dump, keys, ExecuteAll(map[], before, c), c)
  {
    hide Reaches, ExecuteAll, Logged, Sent, Followed, EncodeAll, Holds, Timeless, Fits, Snapshot.IsDump, Loggable;
    EveryRunKeepsInvariant(acts, s, c);
    assert s.hist[..|before|] == before && s.hist[|before|..] == after;
    keys :| Carries(s.dump, keys, Joint(s, c), c);
    JointIsClean(s, c);
    KeysOfDump(s.dump, keys, Joint(s, c), c);
    assert s.lost + s.feed + [] == s.feed;
    assert Stream(s) == s.dump + s.feed;
  }

  /** The first half: a fresh store, a script, and `SYNC`. */
  method OpenSession(n: nat, router: Bytes -> nat, before: seq<Timed>, at: nat, lifetime: Option<nat>, room: Option<nat>, c: ScoreText)
    returns (st: Store, sock: Socket, aof: Aof, repl: Registry, ghost acts: seq<Action>, ghost s: System)
    requires Script(before, 0) && TimeAt(before, |before|, 0) <= at && Addressed(map[], before, c)
    requires Copyable(ExecuteAll(map[], before, c), c)
    ensures fresh(st) && st.Valid() && st.maxmemory == 0 && st.router == router && |st.shards| == ShardCount(n)
    ensures fresh(st.shards) && forall x | x in st.shards :: fresh(x.pol)
    ensures fresh(sock) && sock.lifetime == lifetime && fresh(aof) && aof.room == room
    ensures fresh(repl) && repl.Valid() && (repl.replicas == [] || repl.replicas == [sock])
    ensures Reaches(acts, s, c) && Follows(s, st.Contents(), at, sock, sock in repl.replicas, aof, c)
    ensures JustJoined(s, before) && s.primary == ExecuteAll(map[], before, c)
  {
    hide Store.Valid, Store.Contents, Store.Images, Shard.Valid, Live, ExecuteAll, Reaches, Follows, Onward, JustJoined,
         Addressed, Copyable, Script, TimeAt;
    st := new Store(n, 0, router);
    sock := new Socket(lifetime);
    aof := new Aof(room);
    repl := new Registry();
    StartReached(c);
    StartFollows(sock, aof, c);
    acts, s := RunCommands(st, aof, repl, sock, before, c, [], START, 0);
    BeforeSync(acts, s, before, c);
    ghost var since := TimeAt(before, |before|, 0);
    NothingSent(acts, s, st.Contents(), since, sock, aof, c);
    acts, s := SyncStep(st, aof, repl, sock, at, c, acts, s, since);
    AfterSync(acts, s, before, c);
  }

  /**
   * The primary's side: a fresh store serves some commands, then `SYNC` for one socket that may fail
   * at any byte, then more commands, with a log on a disk that may fill up at any byte. Everything it
   * did is a run of the protocol with no race in it. What it shows, what the socket took and what the
   * log file holds are functions of the script, up to the order of the dump.
   */
  method PrimarySession(n: nat, router: Bytes -> nat, before: seq<Timed>, at: nat, after: seq<Timed>, lifetime: Option<nat>,
                        room: Option<nat>, c: ScoreText)
    returns (st: Store, sock: Socket, aof: Aof, ghost acts: seq<Action>, ghost s: System)
    requires Scenario(before, at, after, c)
    ensures fresh(st) && st.Valid() && st.router == router && |st.shards| == ShardCount(n)
    ensures fresh(sock) && sock.lifetime == lifetime && fresh(aof) && aof.room == room
    ensures Ended(acts, s, before, after, c) && Delivered(s, lifetime) && sock.sent == s.wire
    ensures ShowsScript(st.Contents(), before, at, after, c)
    ensures Holds(aof.file, room, Recovery.LogFile(before + after, c))
  {
    hide Store.Valid, Store.Contents, Store.Images, Shard.Valid, Live, ExecuteAll, Reaches, Follows, Onward, JustJoined, Ended,
         Addressed, Copyable, Script, TimeAt, Delivered, Holds, Recovery.LogFile;
    var repl;
    st, sock, aof, repl, acts, s := OpenSession(n, router, before, at, lifetime, room, c);
    ghost var joined := s;
    acts, s := RunCommands(st, aof, repl, sock, after, c, acts, joined, at);
    AtRest(s, st.Contents(), TimeAt(after, |after|, at), sock, sock in repl.replicas, aof, c);
    EndOfSession(acts, joined, s, before, after, c);
    EndPrimary(acts, s, before, after, c);
  }

  lemma AtRest(s: System, contents: Db, since: nat, sock: Socket, linked: bool, aof: Aof, c: ScoreText)
    requires Follows(s, contents, since, sock, linked, aof, c)
    ensures sock.sent == s.wire && s.flight.None? && s.linked == linked && Live(contents, since) == s.primary
    ensures Delivered(s, sock.lifetime) && Runnable(s.hist) && Holds(aof.file, aof.room, Recovery.LogFile(s.hist, c))
  {
    hide Delivered, Holds, Live, Recovery.LogFile;
  }

  lemma {:induction false} NothingSent(acts: seq<Action>, s: System, contents: Db, since: nat, sock: Socket, aof: Aof, c: ScoreText)
    requires Reaches(acts, s, c) && s.dumped.None? && Follows(s, contents, since, sock, false, aof, c)
    ensures sock.sent == []
  {
    hide Reaches, Followed, Delivered, Holds, Live, Recovery.LogFile, Served, EncodeAll, Joint, Carries, Logged;
    EveryRunKeepsInvariant(acts, s, c);
  }

  lemma {:induction false} EndPrimary(acts: seq<Action>, s: System, before: seq<Timed>, after: seq<Timed>, c: ScoreText)
    requires Ended(acts, s, before, after, c)
    ensures Runnable(before + after) && s.hist == before + after && s.primary == ExecuteAll(map[], before + after, c)
  {
    hide Reaches, Accounted, Harmless, ExecuteAll;
    PrimaryIs(s, before + after, c);
  }

  // ---------- the replica ----------

  /**
   * What the first `n` commands on the wire stand for: the entries of the snapshot that are among
   * them, in dump order; and once all are, the primary's keyspace after the longest prefix of the
   * script whose flagged commands are among them.
   */
  ghost function Arrived(keys: seq<Bytes>, before: seq<Timed>, after: seq<Timed>, n: nat, c: ScoreText): Db {
    if !Runnable(before) || !Runnable(after) then map[]
    else
      var db := ExecuteAll(map[], before, c);
      if n < |keys| then Snapshot.Only(db, keys[..n])
      else ExecuteAll(map[], before + after[..Recovery.LogReach(db, after, c, n - |keys|)], c)
  }

  /** So many commands stand for the whole script. */
  ghost predicate Completes(keys: seq<Bytes>, before: seq<Timed>, after: seq<Timed>, n: nat, c: ScoreText) {
    Runnable(before + after) && Arrived(keys, before, after, n, c) == ExecuteAll(map[], before + after, c)
  }

  lemma {:induction false} MomentIsArrived(acts: seq<Action>, s: System, keys: seq<Bytes>, before: seq<Timed>, after: seq<Timed>,
                                           n: nat, c: ScoreText)
    requires Ended(acts, s, before, after, c) && |s.dump| == |keys| <= n
    ensures Moment(s, MomentOf(s, n - |s.dump|, c), c) == Arrived(keys, before, after, n, c)
  {
    hide Reaches, ExecuteAll, Harmless, Accounted, Timeless, Fits, Recovery.LogReach;
    assert s.hist[..|before|] == before && s.hist[|before|..] == after;
    assert forall i | 0 <= i < |before| :: before[i] == s.hist[i];
    assert forall i | 0 <= i < |after| :: after[i] == s.hist[|before| + i];
    var k := Recovery.LogReach(ExecuteAll(map[], before, c), after, c, n - |keys|);
    assert s.hist[..|before| + k] == before + after[..k];
  }

  /** Replaying commands that name no time does not depend on the clock. */
  lemma {:induction false} ReplayedAtZero(cmds: seq<Argv>, clock: nat -> nat, c: ScoreText)
    requires AllTimeless(cmds)
    ensures Runnable(Stamp(cmds, clock)) && ExecuteAll(map[], Stamp(cmds, clock), c) == ExecuteAll(map[], AtZero(cmds), c)
  {
    hide ExecuteAll, Timeless;
    ExecuteAllIsTimeless(map[], Stamp(cmds, clock), AtZero(cmds), c);
  }

  /** Before the whole snapshot has arrived. */
  lemma {:induction false} PartShows(acts: seq<Action>, s: System, j: nat, keys: seq<Bytes>, before: seq<Timed>, after: seq<Timed>,
                                     clock: nat -> nat, c: ScoreText)
    requires Ended(acts, s, before, after, c) && Carries(s.dump, keys, ExecuteAll(map[], before, c), c) && j < |s.dump|
    ensures |s.dump| == |keys| && Runnable(Stamp(Stream(s)[..j], clock))
    ensures ExecuteAll(map[], Stamp(Stream(s)[..j], clock), c) == Arrived(keys, before, after, j, c)
  {
    hide Reaches, ExecuteAll, Harmless, Accounted, Timeless, Fits, Carries, Snapshot.Only;
    assert s.hist[..|before|] == before;
    assert forall i | 0 <= i < |before| :: before[i] == s.hist[i];
    assert forall i | 0 <= i < |after| :: after[i] == s.hist[|before| + i];
    assert Stream(s)[..j] == s.dump[..j];
    SnapshotPartway(s, keys, j, c);
    ReplayedAtZero(s.dump[..j], clock, c);
  }

  /** What the reads carry, applied at any times. */
  lemma {:induction false} ArrivedShows(acts: seq<Action>, s: System, m: nat, chunks: seq<Bytes>, keys: seq<Bytes>,
                                        before: seq<Timed>, after: seq<Timed>, clock: nat -> nat, c: ScoreText)
    requires Ended(acts, s, before, after, c) && m <= |s.wire| && Streams.Concat(chunks) == s.wire[..m]
    requires |s.dump| == |keys| && Carries(s.dump, keys, ExecuteAll(map[], before, c), c)
    ensures var cmds := Streams.Drain(s.wire[..m]).cmds;
            && Streams.Feed([], chunks).cmds == cmds && Runnable(Stamp(cmds, clock))
            && ExecuteAll(map[], Stamp(cmds, clock), c) == Arrived(keys, before, after, |cmds|, c)
            && (s.linked && m == |s.wire| ==> Arrived(keys, before, after, |cmds|, c) == s.primary)
  {
    hide Reaches, ExecuteAll, Harmless, Served, Accounted, Carries, Streams.Drain, Streams.Feed, Arrived, Moment, MomentOf;
    var j := ReadsArrive(acts, s, m, chunks, c);
    if j < |s.dump| {
      PartShows(acts, s, j, keys, before, after, clock, c);
    } else {
      SessionFollows(acts, s, m, chunks, clock, c);
      MomentIsArrived(acts, s, keys, before, after, j, c);
      MomentIsPrimary(s, c);
    }
  }

  lemma {:induction false} ArrivedLater(contents: Db, keys: seq<Bytes>, before: seq<Timed>, after: seq<Timed>, cmds: seq<Argv>,
                                        clock: nat -> nat, c: ScoreText)
    requires Shows(contents, map[], cmds, clock, c, LastTime(clock, |cmds|)) && AllTimeless(cmds)
    requires ExecuteAll(map[], Stamp(cmds, clock), c) == Arrived(keys, before, after, |cmds|, c)
    ensures forall t | LastTime(clock, |cmds|) <= t :: Live(contents, t) == Arrived(keys, before, after, |cmds|, c)
  {
    hide Live, Timeless, ExecuteAll, Arrived;
    Recovery.ShownFromThen(contents, Stamp(cmds, clock), cmds, clock, c, LastTime(clock, |cmds|));
  }

  /** Everything on the wire names no time. */
  lemma {:induction false} WireIsTimeless(acts: seq<Action>, s: System, m: nat, c: ScoreText)
    requires Reaches(acts, s, c) && s.dumped.Some? && m <= |s.wire|
    ensures AllTimeless(Streams.Drain(s.wire[..m]).cmds)
  {
    hide Reaches, Served, Accounted, Sent, Followed, Streams.Drain, Streams.LinesBounded, AllTimeless, Stream;
    EveryRunKeepsInvariant(acts, s, c);
    var j := ArrivedIsPrefix(s, m, c);
    StreamIsSendable(s, c);
    PrefixTimeless(Stream(s), j);
  }

  /** A store that shows, from its last command on, what the first `n` commands on the wire stand for. */
  ghost predicate ShowsArrived(contents: Db, keys: seq<Bytes>, before: seq<Timed>, after: seq<Timed>, n: nat,
                               clock: nat -> nat, c: ScoreText) {
    forall t | LastTime(clock, n) <= t :: Live(contents, t) == Arrived(keys, before, after, n, c)
  }

  /** The first `n` bytes, or all of them. */
  function Cut(bytes: Bytes, n: Option<nat>): Bytes {
    bytes[..Accepted(n, 0, |bytes|)]
  }

  /** The replica's side: a fresh store, and bytes in pieces of any sizes. */
  method Receive(n: nat, router: Bytes -> nat, got: Bytes, sizes: seq<nat>, clock: nat -> nat, c: ScoreText,
                 ghost acts: seq<Action>, ghost s: System, ghost keys: seq<Bytes>, ghost before: seq<Timed>, ghost after: seq<Timed>)
    returns (replica: Store, applied: nat)
    requires Ended(acts, s, before, after, c) && got <= s.wire && Monotone(clock)
    requires |s.dump| == |keys| && Carries(s.dump, keys, ExecuteAll(map[], before, c), c)
    ensures fresh(replica) && replica.Valid() && replica.router == router && |replica.shards| == ShardCount(n)
    ensures applied == |Streams.Drain(got).cmds|
    ensures ShowsArrived(replica.Contents(), keys, before, after, applied, clock, c)
    ensures s.linked && got == s.wire ==> Arrived(keys, before, after, applied, c) == s.primary
  {
    hide Store.Valid, Store.Contents, Store.Images, Shard.Valid, Live, Reaches, Arrived, Shows, Stands, ExecuteAll,
         Streams.Feed, Streams.Drain, Unharmed, Monotone, LastTime, Carries, AllTimeless;
    var chunks := Chop(got, sizes);
    replica := new Store(n, 0, router);
    var corrupt;
    applied, corrupt := SyncOnce(replica, chunks, clock, c);
    assert got == s.wire[..|got|];
    ArrivedShows(acts, s, |got|, chunks, keys, before, after, clock, c);
    WireIsTimeless(acts, s, |got|, c);
    ArrivedLater(replica.Contents(), keys, before, after, Streams.Drain(got).cmds, clock, c);
  }

  /**
   * Two real stores and a socket between them. The primary serves a script, `SYNC` and another script
   * while the socket may fail at any byte; the replica gets the bytes up to any cut in pieces of any
   * sizes and applies them at any times. What the primary shows, what the socket took, what the
   * replica got and how many commands that is are functions of the arguments, up to the order of the
   * dump; and from the last command on the replica shows exactly what those commands stand for. If
   * nothing failed and nothing was cut, that is what the primary shows.
   */
  method Replicate(n: nat, router: Bytes -> nat, n2: nat, router2: Bytes -> nat, before: seq<Timed>, at: nat, after: seq<Timed>,
                   lifetime: Option<nat>, cut: Option<nat>, sizes: seq<nat>, clock: nat -> nat, c: ScoreText)
    returns (primary: Store, sock: Socket, got: Bytes, replica: Store, applied: nat, ghost dump: seq<Argv>, ghost keys: seq<Bytes>)
    requires Scenario(before, at, after, c) && Monotone(clock)
    ensures fresh(primary) && primary.Valid() && primary.router == router && |primary.shards| == ShardCount(n)
    ensures fresh(replica) && replica.Valid() && replica.router == router2 && |replica.shards| == ShardCount(n2)
    ensures ShowsScript(primary.Contents(), before, at, after, c)
    ensures Wired(sock.sent, lifetime, dump, keys, before, after, c)
    ensures got == Cut(sock.sent, cut) && applied == |Streams.Drain(got).cmds|
    ensures ShowsArrived(replica.Contents(), keys, before, after, applied, clock, c)
    ensures lifetime.None? && cut.None? ==> Completes(keys, before, after, applied, c)
  {
    hide Store.Valid, Store.Contents, Store.Images, Shard.Valid, Live, Reaches, Scenario, Arrived, ExecuteAll,
         Streams.Drain, Unharmed, Monotone, LastTime, TimeAt, Wired, Carries, Holds, Recovery.LogFile, Delivered, Ended,
         ShowsScript, ShowsArrived;
    var aof;
    ghost var acts, s;
    primary, sock, aof, acts, s := PrimarySession(n, router, before, at, after, lifetime, None, c);
    dump := s.dump;
    keys := SessionWired(acts, s, before, after, lifetime, c);
    got := Cut(sock.sent, cut);
    ghost var shown := primary.Contents();
    replica, applied := Receive(n2, router2, got, sizes, clock, c, acts, s, keys, before, after);
    assert primary.Contents() == shown;
    EndPrimary(acts, s, before, after, c);
    if lifetime.None? && cut.None? {
      UncutIsLinked(acts, s, before, after, lifetime, c);
    }
  }

  lemma UncutIsLinked(acts: seq<Action>, s: System, before: seq<Timed>, after: seq<Timed>, lifetime: Option<nat>, c: ScoreText)
    requires Ended(acts, s, before, after, c) && Delivered(s, lifetime) && lifetime.None?
    ensures s.linked
  {
    hide EncodeAll;
  }

  /**
   * The same script and a crash: the log file, cut at any byte or by a full disk, is loaded into a
   * fresh store of any layout. From then on it shows the primary's keyspace after the longest prefix
   * of the script whose log survived whole.
   */
  method Restart(n: nat, router: Bytes -> nat, n2: nat, router2: Bytes -> nat, before: seq<Timed>, at: nat, after: seq<Timed>,
                 room: Option<nat>, cut: Option<nat>, clock: nat -> nat, c: ScoreText)
    returns (primary: Store, aof: Aof, data: Bytes, copy: Store, ghost i: nat)
    requires Scenario(before, at, after, c) && Monotone(clock)
    ensures fresh(primary) && primary.Valid() && fresh(copy) && copy.Valid()
    ensures ShowsScript(primary.Contents(), before, at, after, c)
    ensures data == Cut(aof.file, cut) && Holds(aof.file, room, Recovery.LogFile(before + after, c))
    ensures i <= |before + after| && |Recovery.LogFile((before + after)[..i], c)| <= |data|
    ensures i < |before + after| ==> |data| < |Recovery.LogFile((before + after)[..i + 1], c)|
    ensures forall t | LastTime(clock, |Streams.Drain(data).cmds|) <= t ::
              Live(copy.Contents(), t) == ExecuteAll(map[], (before + after)[..i], c)
  {
    hide Store.Valid, Store.Contents, Store.Images, Shard.Valid, Live, Scenario, ExecuteAll, Ended, Delivered, Recovery.LogFile,
         Streams.Drain, LastTime, TimeAt, Timeless, Loggable, Logged, ShowsScript;
    var sock;
    ghost var acts, s;
    primary, sock, aof, acts, s := PrimarySession(n, router, before, at, after, None, room, c);
    data := Cut(aof.file, cut);
    ghost var shown := primary.Contents();
    ScriptIsLoggable(before, at, after, c);
    copy, i := Recovery.RecoverLog(n2, router2, data, clock, c, before + after, |data|);
    assert primary.Contents() == shown;
  }

  lemma {:induction false} ScriptIsLoggable(before: seq<Timed>, at: nat, after: seq<Timed>, c: ScoreText)
    requires Scenario(before, at, after, c)
    ensures Runnable(before + after) && (forall i | 0 <= i < |before + after| :: Timeless((before + after)[i].argv))
    ensures Loggable(CommandsOf(Logged(map[], before + after, c)))
  {
    hide ExecuteAll, Addressed, Copyable, Timeless, Fits;
    LoggedFit(map[], before + after, c);
  }

  lemma {:induction false} LoggedFit(db: Db, hist: seq<Timed>, c: ScoreText)
    requires Runnable(hist) && forall i | 0 <= i < |hist| :: Fits(hist[i].argv)
    ensures Loggable(CommandsOf(Logged(db, hist, c)))
  {
    hide ExecuteAll, Execute, Fits;
    if hist != [] {
      LoggedFit(db, hist[..|hist| - 1], c);
    }
  }
}
