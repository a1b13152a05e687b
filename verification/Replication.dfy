/** One primary, one replica, one socket between them: the replica follows the primary's past. */
module Replication {
  import opened Basics
  import opened Resp
  import opened Frames
  import opened Values
  import opened Keyspace
  import opened Commands
  import opened CommandLog
  import opened ExpiryFree
  import opened Persistence
  import Snapshot
  import Recovery
  import Streams

  // ---------- the step system ----------

  /**
   * The writing connection serves a command and propagates it later; the connection that asked for
   * `SYNC` dumps and registers later; the two interleave.
   *
   * `hist` is what the primary has served and `primary` its keyspace; `flight` is a flagged command
   * that was served and not yet propagated. `dumped` is how long `hist` was when the snapshot `dump`
   * was taken, and `early` says that `flight` was served before that. `wire` is every byte the socket
   * accepted, and `linked` says whether the registry still writes to it. The replica has read
   * `taken` bytes, applied `applied`, and keeps an unfinished frame in `buf`.
   *
   * Commands propagated since the registration are `twice` (served before the dump, so already in
   * it) and `feed` (served after it); those served after the dump and propagated before the
   * registration are `lost`.
   */
  datatype System = System(
    hist: seq<Timed>, primary: Db, flight: Option<Argv>,
    dumped: Option<nat>, dump: seq<Argv>, early: bool, registered: bool,
    lost: seq<Argv>, twice: seq<Argv>, feed: seq<Argv>, linked: bool, wire: Bytes,
    taken: nat, buf: Bytes, applied: seq<Argv>, replica: Db, closed: bool)

  /** `sent` is how many bytes of the write the socket accepts before it fails, if it fails. */
  datatype Action =
    | Serve(argv: Argv, now: nat)
    | Propagate(sent: nat)
    | Dump(cmds: seq<Argv>, keys: seq<Bytes>)
    | Register(sent: nat)
    | Read(n: nat, clock: nat -> nat)

  const START := System([], map[], None, None, [], false, false, [], [], [], false, [], 0, [], [], map[], false)

  /** A snapshot that the parser and the score texts can carry. */
  ghost predicate Carries(cmds: seq<Argv>, keys: seq<Bytes>, db: Db, c: ScoreText) {
    && Snapshot.IsDump(cmds, keys, db, c) && Loggable(cmds)
    && forall k | k in db :: Snapshot.Printable(db[k].value, c)
  }

  ghost predicate Enabled(s: System, a: Action, c: ScoreText) {
    match a
    case Serve(argv, _) => s.flight.None? && Timeless(argv) && Fits(argv)
    case Propagate(sent) => s.flight.Some? && sent <= |Encode(s.flight.value)|
    case Dump(cmds, keys) => s.dumped.None? && Carries(cmds, keys, s.primary, c)
    case Register(sent) => s.dumped.Some? && !s.registered && sent <= |EncodeAll(s.dump)|
    case Read(n, _) => !s.closed && 0 < n && s.taken + n <= |s.wire|
  }

  /** A write of `bytes` to the socket; one that fails half way drops the replica. */
  function Written(s: System, bytes: Bytes, sent: nat): System
    requires sent <= |bytes|
  {
    s.(wire := s.wire + bytes[..sent], linked := sent == |bytes|)
  }

  /** Where a propagated command belongs. */
  function Filed(s: System, argv: Argv): System {
    if s.dumped.None? then s
    else if !s.registered then (if s.early then s else s.(lost := s.lost + [argv]))
    else if s.early then s.(twice := s.twice + [argv])
    else s.(feed := s.feed + [argv])
  }

  ghost function Next(s: System, a: Action, c: ScoreText): System
    requires Enabled(s, a, c)
  {
    match a
    case Serve(argv, now) =>
      var (after, out) := Execute(s.primary, argv, now, c);
      s.(hist := s.hist + [Timed(argv, now)], primary := after, early := false,
         flight := if out.persist then Some(argv) else None)
    case Propagate(sent) =>
      var argv := s.flight.value;
      var filed := Filed(s, argv).(flight := None);
      if s.linked then Written(filed, Encode(argv), sent) else filed
    case Dump(cmds, _) => s.(dumped := Some(|s.hist|), dump := cmds, early := true)
    case Register(sent) => Written(s.(registered := true), EncodeAll(s.dump), sent)
    case Read(n, clock) =>
      var data := s.buf + s.wire[s.taken..s.taken + n];
      var d := Streams.Drain(data);
      DrainedAreNonEmpty(data);
      s.(taken := s.taken + n, buf := data[d.used..], applied := s.applied + d.cmds,
         replica := ExecuteAll(s.replica, Stamp(d.cmds, clock), c), closed := d.error.Some?)
  }

  /** `s` is reached by the actions, each enabled in its turn. */
  ghost predicate Reaches(acts: seq<Action>, s: System, c: ScoreText) {
    if acts == [] then s == START
    else
      var last := acts[|acts| - 1];
      exists p :: Reaches(acts[..|acts| - 1], p, c) && Enabled(p, last, c) && s == Next(p, last, c)
  }

  lemma {:induction false} ReachesNext(acts: seq<Action>, s: System, a: Action, c: ScoreText)
    requires Reaches(acts, s, c) && Enabled(s, a, c)
    ensures Reaches(acts + [a], Next(s, a, c), c)
  {
    hide Next, Enabled;
    var more := acts + [a];
    assert more[..|more| - 1] == acts && more[|more| - 1] == a;
    assert Reaches(more[..|more| - 1], s, c) && Enabled(s, more[|more| - 1], c);
  }

  // ---------- the primary's side ----------

  predicate AllTimeless(cmds: seq<Argv>)
    ensures AllTimeless(cmds) ==> Runnable(AtZero(cmds))
  {
    forall i | 0 <= i < |cmds| :: Timeless(cmds[i])
  }

  /** Commands that can be sent and mean the same whenever they run. */
  predicate Sendable(cmds: seq<Argv>) {
    AllTimeless(cmds) && Loggable(cmds)
  }

  ghost predicate Served(s: System, c: ScoreText) {
    && (forall i | 0 <= i < |s.hist| :: Timeless(s.hist[i].argv))
    && Runnable(s.hist) && s.primary == ExecuteAll(map[], s.hist, c)
    && (s.flight.Some? ==> Timeless(s.flight.value) && Fits(s.flight.value))
  }

  /** The keyspace the snapshot was taken of. */
  ghost function Joint(s: System, c: ScoreText): Db
    requires Served(s, c) && s.dumped.Some? && s.dumped.value <= |s.hist|
  {
    ExecuteAll(map[], s.hist[..s.dumped.value], c)
  }

  /** What was flagged since the dump. */
  ghost function Flagged(s: System, c: ScoreText): seq<Argv>
    requires Served(s, c) && s.dumped.Some? && s.dumped.value <= |s.hist|
  {
    CommandsOf(Logged(Joint(s, c), s.hist[s.dumped.value..], c))
  }

  /** A command that is in flight and not in the snapshot. */
  function LateFlight(s: System): seq<Argv> {
    if s.flight.Some? && !s.early then [s.flight.value] else []
  }

  /** What was flagged since the dump went missing, went to the feed, or is about to go somewhere. */
  ghost predicate Accounted(s: System, c: ScoreText)
    requires Served(s, c)
  {
    if s.dumped.None? then s.lost == s.twice == s.feed == s.dump == [] && !s.registered
    else
      && s.dumped.value <= |s.hist|
      && (exists keys :: Carries(s.dump, keys, Joint(s, c), c))
      && Flagged(s, c) == s.lost + s.feed + LateFlight(s)
      && (s.early ==> s.dumped.value == |s.hist|)
      && (!s.registered ==> s.twice == s.feed == [])
      && |s.twice| <= 1 && (s.twice != [] ==> s.lost == []) && (s.flight.Some? && s.early ==> s.twice == [])
      && Sendable(s.lost) && Sendable(s.twice) && Sendable(s.feed)
  }

  /** What an unbroken socket carries. */
  function Stream(s: System): seq<Argv> {
    s.dump + (s.twice + s.feed)
  }

  ghost predicate Sent(s: System) {
    && (!s.registered ==> s.wire == [] && !s.linked)
    && s.wire <= EncodeAll(Stream(s))
    && (s.linked ==> s.wire == EncodeAll(Stream(s)))
  }

  // ---------- the replica's side ----------

  ghost predicate Followed(s: System, c: ScoreText) {
    && s.taken <= |s.wire| && !s.closed
    && (var d := Streams.Drain(s.wire[..s.taken]);
        d.error.None? && s.applied == d.cmds && s.buf == s.wire[..s.taken][d.used..])
    && AllTimeless(s.applied) && s.replica == ExecuteAll(map[], AtZero(s.applied), c)
  }

  ghost predicate Invariant(s: System, c: ScoreText) {
    Served(s, c) && Accounted(s, c) && Sent(s) && Followed(s, c)
  }

  // ---------- every step of the primary keeps it ----------

  lemma {:induction false} ExecuteAllAppend(db: Db, a: seq<Timed>, b: seq<Timed>, c: ScoreText)
    requires Runnable(a) && Runnable(b)
    ensures Runnable(a + b) && ExecuteAll(db, a + b, c) == ExecuteAll(ExecuteAll(db, a, c), b, c)
    decreases |b|
  {
    hide Execute;
    if b == [] {
      assert a + b == a;
    } else {
      ExecuteAllAppend(db, a, b[..|b| - 1], c);
      assert (a + b)[..|a + b| - 1] == a + b[..|b| - 1];
    }
  }

  lemma {:induction false} ServeKeepsServed(s: System, a: Action, c: ScoreText)
    requires Served(s, c) && a.Serve? && Enabled(s, a, c)
    ensures Served(Next(s, a, c), c)
  {
    hide Execute, Fits;
    assert Next(s, a, c).hist[..|s.hist|] == s.hist;
  }

  lemma {:induction false} LoggedSnoc(db: Db, since: seq<Timed>, h: Timed, c: ScoreText)
    requires Runnable(since) && h.argv != []
    ensures Runnable(since + [h])
    ensures CommandsOf(Logged(db, since + [h], c))
         == CommandsOf(Logged(db, since, c)) + (if IsLogged(ExecuteAll(db, since, c), h, c) then [h.argv] else [])
  {
    hide Execute, ExecuteAll;
    assert (since + [h])[..|since|] == since;
    CommandsSnoc(Logged(db, since, c), h);
  }

  /** Serving a command after the dump adds it to what was flagged since, if it is flagged. */
  lemma {:induction false} ServeExtendsLog(s: System, a: Action, c: ScoreText)
    requires Served(s, c) && a.Serve? && Enabled(s, a, c) && s.dumped.Some? && s.dumped.value <= |s.hist|
    ensures var s' := Next(s, a, c);
            Served(s', c) && Joint(s', c) == Joint(s, c) && Flagged(s', c) == Flagged(s, c) + LateFlight(s')
  {
    hide Execute, Fits, Timeless, ExecuteAll, Logged, Carries, Streams.Drain;
    ServeKeepsServed(s, a, c);
    var s', j, h := Next(s, a, c), s.dumped.value, Timed(a.argv, a.now);
    var since := s.hist[j..];
    assert s'.hist[..j] == s.hist[..j];
    assert s'.hist[j..] == since + [h] && s'.hist[|s.hist|] == h;
    assert s.hist == s.hist[..j] + since;
    ExecuteAllAppend(map[], s.hist[..j], since, c);
    LoggedSnoc(Joint(s, c), since, h, c);
  }

  lemma {:induction false} ServeKeeps(s: System, a: Action, c: ScoreText)
    requires Invariant(s, c) && a.Serve? && Enabled(s, a, c)
    ensures Invariant(Next(s, a, c), c)
  {
    hide Execute, Fits, Timeless, ExecuteAll, Logged, Carries, Served, Sendable, Streams.Drain, EncodeAll, AllTimeless;
    ServeKeepsServed(s, a, c);
    var s' := Next(s, a, c);
    if s.dumped.Some? {
      ServeExtendsLog(s, a, c);
      var keys :| Carries(s.dump, keys, Joint(s, c), c);
      assert Carries(s'.dump, keys, Joint(s', c), c);
      assert LateFlight(s) == [];
      assert s.lost + s.feed + [] == s.lost + s.feed;
    }
  }

  /** Steps that serve nothing leave the primary and its history alone. */
  lemma {:induction false} SameHistory(s: System, s': System, c: ScoreText)
    requires Served(s, c) && s'.hist == s.hist && s'.primary == s.primary
    requires s'.flight.Some? ==> s'.flight == s.flight
    ensures Served(s', c)
    ensures s.dumped.Some? && s'.dumped == s.dumped && s.dumped.value <= |s.hist| ==> Joint(s', c) == Joint(s, c)
  {
    hide ExecuteAll, Timeless, Fits;
  }

  lemma {:induction false} SameDump(s: System, s': System, c: ScoreText)
    requires Served(s, c) && Served(s', c) && Accounted(s, c) && s.dumped.Some?
    requires s'.dumped == s.dumped && s'.dump == s.dump && s.dumped.value <= |s'.hist| && Joint(s', c) == Joint(s, c)
    ensures exists keys :: Carries(s'.dump, keys, Joint(s', c), c)
  {
    hide Carries, Joint, Logged, Served, Sendable;
    var keys :| Carries(s.dump, keys, Joint(s, c), c);
    assert Carries(s'.dump, keys, Joint(s', c), c);
  }

  lemma {:induction false} SendableSnoc(cmds: seq<Argv>, argv: Argv)
    requires Sendable(cmds) && Timeless(argv) && Fits(argv)
    ensures Sendable(cmds + [argv])
  {
    hide Named, IsExpiryOption, Fits;
    assert argv != [];
  }

  /** Before the registration nothing is written; a late command goes missing. */
  lemma {:induction false} PropagateEarly(s: System, a: Action, c: ScoreText)
    requires Invariant(s, c) && a.Propagate? && Enabled(s, a, c) && !s.registered
    ensures Served(Next(s, a, c), c) && Accounted(Next(s, a, c), c) && Sent(Next(s, a, c))
  {
    hide Execute, Fits, Timeless, ExecuteAll, Logged, Carries, Served, Joint, Sendable, Streams.Drain, EncodeAll, Encode;
    var s', argv := Next(s, a, c), s.flight.value;
    SameHistory(s, s', c);
    if s.dumped.Some? {
      SameDump(s, s', c);
      FlightIsGood(s, c);
      SendableSnoc(s.lost, argv);
      assert s.lost + s.feed + [argv] == (s.lost + [argv]) + s.feed + [];
    }
  }

  lemma FlightIsGood(s: System, c: ScoreText)
    requires Served(s, c) && s.flight.Some?
    ensures Timeless(s.flight.value) && Fits(s.flight.value)
  {
  }

  /** After it, the command joins the stream, as a repetition if it was served before the dump. */
  lemma {:induction false} PropagateLate(s: System, a: Action, c: ScoreText)
    requires Invariant(s, c) && a.Propagate? && Enabled(s, a, c) && s.registered
    ensures Served(Next(s, a, c), c) && Accounted(Next(s, a, c), c)
    ensures Stream(Next(s, a, c)) == Stream(s) + [s.flight.value]
  {
    hide Execute, Fits, Timeless, ExecuteAll, Carries, Served, Sendable, Streams.Drain, EncodeAll, Encode;
    var s', argv := Next(s, a, c), s.flight.value;
    SameHistory(s, s', c);
    SameDump(s, s', c);
    FlightIsGood(s, c);
    if s.early {
      assert s.hist[s.dumped.value..] == [];
      assert s.lost == [] && s.feed == [];
      SendableSnoc(s.twice, argv);
    } else {
      SendableSnoc(s.feed, argv);
      assert s.lost + s.feed + [argv] == s.lost + (s.feed + [argv]) + [];
      assert Stream(s') == Stream(s) + [argv];
    }
  }

  lemma {:induction false} PropagateWrites(s: System, a: Action, c: ScoreText)
    requires Sent(s) && a.Propagate? && Enabled(s, a, c) && s.registered
    requires Stream(Next(s, a, c)) == Stream(s) + [s.flight.value]
    ensures Sent(Next(s, a, c))
  {
    hide Encode, EncodeAll, Fits, Streams.Drain;
    EncodeAllAppend(Stream(s), [s.flight.value]);
    OneFrame(s.flight.value);
  }

  lemma OneFrame(argv: Argv)
    ensures EncodeAll([argv]) == Encode(argv) && EncodeAll([]) == []
  {
    hide Encode;
    assert [argv][1..] == [];
    assert EncodeAll([argv]) == Encode(argv) + EncodeAll([]);
  }

  lemma {:induction false} OthersKeepFollowed(s: System, a: Action, c: ScoreText)
    requires Followed(s, c) && !a.Read? && Enabled(s, a, c)
    ensures Followed(Next(s, a, c), c)
  {
    hide Execute, Fits, Encode, Carries, EncodeAll, Streams.Drain, ExecuteAll, AllTimeless;
    assert Next(s, a, c).wire[..s.taken] == s.wire[..s.taken];
  }

  lemma {:induction false} DumpKeeps(s: System, a: Action, c: ScoreText)
    requires Invariant(s, c) && a.Dump? && Enabled(s, a, c)
    ensures Served(Next(s, a, c), c) && Accounted(Next(s, a, c), c) && Sent(Next(s, a, c))
  {
    hide Execute, Fits, EncodeAll, Snapshot.IsDump, Snapshot.Printable, Timeless, Streams.Drain;
    var s' := Next(s, a, c);
    assert s'.hist[..|s.hist|] == s.hist && s'.hist[|s.hist|..] == [];
    assert Served(s', c);
    assert Carries(s'.dump, a.keys, Joint(s', c), c);
  }

  lemma {:induction false} RegisterKeeps(s: System, a: Action, c: ScoreText)
    requires Invariant(s, c) && a.Register? && Enabled(s, a, c)
    ensures Served(Next(s, a, c), c) && Accounted(Next(s, a, c), c) && Sent(Next(s, a, c))
  {
    hide Execute, Fits, Timeless, ExecuteAll, Logged, Carries, Served, Joint, Sendable, Streams.Drain, EncodeAll;
    var s' := Next(s, a, c);
    SameHistory(s, s', c);
    SameDump(s, s', c);
    assert Stream(s') == s.dump;
  }

  // ---------- reading ----------

  lemma RecreateIsTimeless(argv: Argv, k: Bytes, v: Value, c: ScoreText)
    requires Snapshot.Recreates(argv, k, v, c)
    ensures Timeless(argv)
  {
    var text := if v.Str? then "SET" else if v.List? then "RPUSH" else if v.Hash? then "HSET" else if v.Set? then "SADD" else "ZADD";
    Snapshot.UpperOfName(text);
    assert argv[0] == Ascii(text);
    NotAnExpiryName(text);
  }

  lemma NotAnExpiryName(text: string)
    requires text == "SET" || text == "RPUSH" || text == "HSET" || text == "SADD" || text == "ZADD"
    ensures Ascii(text) != Ascii("SETEX") && Ascii(text) != Ascii("PSETEX") && Ascii(text) != Ascii("EXPIRE")
    ensures Ascii(text) != Ascii("PEXPIRE") && Ascii(text) != Ascii("EXPIREAT") && Ascii(text) != Ascii("PEXPIREAT")
    ensures text != "SET" ==> Ascii(text) != Ascii("SET")
  {
    AsciiDiffer("RPUSH", "SETEX", 0);
  }

  lemma {:induction false} DumpIsTimeless(cmds: seq<Argv>, keys: seq<Bytes>, db: Db, c: ScoreText)
    requires Snapshot.DumpSeq(cmds, keys, db, c) && Permanent(db)
    ensures AllTimeless(cmds)
    decreases |keys|
  {
    hide Snapshot.Recreates, Timeless;
    if keys != [] {
      var k := keys[|keys| - 1];
      var n := |cmds| - 1;
      DumpIsTimeless(cmds[..n], keys[..|keys| - 1], db, c);
      RecreateIsTimeless(cmds[n], k, db[k].value, c);
    }
  }

  lemma {:induction false} JointIsClean(s: System, c: ScoreText)
    requires Served(s, c) && s.dumped.Some? && s.dumped.value <= |s.hist|
    ensures Permanent(Joint(s, c)) && NoneEmpty(Joint(s, c))
  {
    hide Timeless, ExecuteAll, Fits;
    var past := s.hist[..s.dumped.value];
    ExecuteAllIsTimeless(map[], past, past, c);
    ExecuteAllKeepsNoneEmpty(map[], past, c);
  }

  lemma {:induction false} SendableAppend(a: seq<Argv>, b: seq<Argv>)
    requires Sendable(a) && Sendable(b)
    ensures Sendable(a + b)
  {
    hide Timeless, Fits;
  }

  lemma {:induction false} StreamIsSendable(s: System, c: ScoreText)
    requires Served(s, c) && Accounted(s, c) && s.dumped.Some?
    ensures Sendable(Stream(s)) && Sendable(s.dump)
  {
    hide Timeless, ExecuteAll, Fits, Logged, Joint, Snapshot.DumpSeq, Snapshot.Printable, Served, AllTimeless;
    var keys :| Carries(s.dump, keys, Joint(s, c), c);
    JointIsClean(s, c);
    DumpIsTimeless(s.dump, keys, Joint(s, c), c);
    SendableAppend(s.twice, s.feed);
    SendableAppend(s.dump, s.twice + s.feed);
  }

  /** What arrived is a whole number of the stream's commands and perhaps a piece of the next. */
  lemma {:induction false} ArrivedIsPrefix(s: System, m: nat, c: ScoreText) returns (j: nat)
    requires Served(s, c) && Accounted(s, c) && Sent(s) && s.dumped.Some? && m <= |s.wire|
    ensures j <= |Stream(s)| && Streams.LinesBounded(s.wire[..m])
    ensures var d := Streams.Drain(s.wire[..m]); d.cmds == Stream(s)[..j] && d.error.None?
    ensures s.linked && m == |s.wire| ==> j == |Stream(s)|
  {
    hide Served, Accounted, Stream, EncodeAll, Streams.Drain, Streams.LinesBounded, Loggable, AllTimeless;
    StreamIsSendable(s, c);
    var all := EncodeAll(Stream(s));
    assert s.wire[..m] == all[..m];
    j := TornLog(Stream(s), m);
    if s.linked && m == |s.wire| {
      WholeLog(Stream(s));
      assert all[..m] == all;
    }
  }

  /** Applying more commands, at whatever times, to what was applied so far. */
  lemma {:induction false} AppliedMore(done: seq<Argv>, more: seq<Argv>, clock: nat -> nat, c: ScoreText)
    requires AllTimeless(done + more)
    ensures AllTimeless(done) && AllTimeless(more) && Runnable(Stamp(more, clock))
    ensures ExecuteAll(ExecuteAll(map[], AtZero(done), c), Stamp(more, clock), c)
         == ExecuteAll(map[], AtZero(done + more), c)
  {
    hide Timeless, ExecuteAll;
    assert AllTimeless(done) by {
      assert forall i | 0 <= i < |done| :: done[i] == (done + more)[i];
    }
    assert AllTimeless(more) by {
      assert forall i | 0 <= i < |more| :: more[i] == (done + more)[|done| + i];
    }
    ExecuteAllIsTimeless(map[], AtZero(done), AtZero(done), c);
    ExecuteAllIsTimeless(ExecuteAll(map[], AtZero(done), c), Stamp(more, clock), AtZero(more), c);
    ExecuteAllAppend(map[], AtZero(done), AtZero(more), c);
    assert AtZero(done) + AtZero(more) == AtZero(done + more);
  }

  lemma {:induction false} PrefixTimeless(cmds: seq<Argv>, j: nat)
    requires AllTimeless(cmds) && j <= |cmds|
    ensures AllTimeless(cmds[..j])
  {
    hide Timeless;
  }

  lemma {:induction false} ReadFollows(s: System, a: Action, c: ScoreText)
    requires Invariant(s, c) && a.Read? && Enabled(s, a, c)
    ensures Followed(Next(s, a, c), c)
  {
    hide Served, Accounted, Stream, EncodeAll, ExecuteAll, AllTimeless, Streams.Drain, Streams.LinesBounded, Loggable;
    assert s.dumped.Some? by { SomethingSent(s, c); }
    var was, got := s.wire[..s.taken], s.wire[..s.taken + a.n];
    var chunk := s.wire[s.taken..s.taken + a.n];
    assert got == was + chunk;
    var j := ArrivedIsPrefix(s, s.taken + a.n, c);
    Streams.DrainExtends(was, chunk);
    var d, e := Streams.Drain(was), Streams.Drain(s.buf + chunk);
    assert was[d.used..] + chunk == s.buf + chunk;
    StreamIsSendable(s, c);
    PrefixTimeless(Stream(s), j);
    AppliedMore(s.applied, e.cmds, a.clock, c);
    assert (s.buf + chunk)[e.used..] == got[d.used + e.used..];
  }

  lemma SomethingSent(s: System, c: ScoreText)
    requires Served(s, c) && Accounted(s, c) && Sent(s) && s.wire != []
    ensures s.dumped.Some?
  {
    hide Served, EncodeAll, Joint, Carries, Logged;
  }

  lemma {:induction false} ReaderOnly(s: System, s': System, c: ScoreText)
    requires Served(s, c) && Accounted(s, c) && Sent(s)
    requires s' == s.(taken := s'.taken, buf := s'.buf, applied := s'.applied, replica := s'.replica, closed := s'.closed)
    ensures Served(s', c) && Accounted(s', c) && Sent(s')
  {
    hide Carries, EncodeAll, ExecuteAll, Logged, Timeless, Fits, Sendable;
    SameHistory(s, s', c);
    if s.dumped.Some? {
      SameDump(s, s', c);
    }
  }

  lemma {:induction false} ReadKeeps(s: System, a: Action, c: ScoreText)
    requires Invariant(s, c) && a.Read? && Enabled(s, a, c)
    ensures Invariant(Next(s, a, c), c)
  {
    hide Served, Accounted, Sent, Followed, ExecuteAll, Streams.Drain;
    ReadFollows(s, a, c);
    ReaderOnly(s, Next(s, a, c), c);
  }

  /** Every reachable state satisfies the invariant. */
  lemma {:induction false} EveryRunKeepsInvariant(acts: seq<Action>, s: System, c: ScoreText)
    requires Reaches(acts, s, c)
    ensures Invariant(s, c)
  {
    hide Next, Enabled, Served, Accounted, Sent, Followed;
    if acts == [] {
      StartIsGood(c);
    } else {
      var last := acts[|acts| - 1];
      var p :| Reaches(acts[..|acts| - 1], p, c) && Enabled(p, last, c) && s == Next(p, last, c);
      EveryRunKeepsInvariant(acts[..|acts| - 1], p, c);
      StepKeeps(p, last, c);
    }
  }

  lemma {:induction false} StepKeeps(s: System, a: Action, c: ScoreText)
    requires Invariant(s, c) && Enabled(s, a, c)
    ensures Invariant(Next(s, a, c), c)
  {
    hide Next, Enabled, Served, Accounted, Sent, Followed;
    if !a.Read? {
      OthersKeepFollowed(s, a, c);
    }
    match a
    case Serve(_, _) => ServeKeeps(s, a, c);
    case Propagate(_) =>
      if s.registered {
        PropagateLate(s, a, c);
        PropagateWrites(s, a, c);
      } else {
        PropagateEarly(s, a, c);
      }
    case Dump(_, _) => DumpKeeps(s, a, c);
    case Register(_) => RegisterKeeps(s, a, c);
    case Read(_, _) => ReadKeeps(s, a, c);
  }

  lemma {:induction false} StartReached(c: ScoreText)
    ensures Reaches([], START, c)
  {
  }

  lemma StartIsGood(c: ScoreText)
    ensures Invariant(START, c)
  {
    Streams.EmptyNeedsMore();
    assert START.wire[..0] == [];
  }

  // ---------- what the replica shows ----------

  /** The snapshot alone, applied at any times, is the keyspace it was taken of. */
  lemma {:induction false} SnapshotApplied(s: System, c: ScoreText)
    requires Served(s, c) && Accounted(s, c) && s.dumped.Some?
    ensures AllTimeless(s.dump) && ExecuteAll(map[], AtZero(s.dump), c) == Joint(s, c)
  {
    hide Served, ExecuteAll, Live, Logged, Snapshot.DumpSeq, Snapshot.Distinct, Snapshot.Printable, Timeless, Sendable;
    var db := Joint(s, c);
    var keys :| Carries(s.dump, keys, db, c);
    JointIsClean(s, c);
    DumpIsTimeless(s.dump, keys, db, c);
    ExecuteAllIsTimeless(map[], AtZero(s.dump), AtZero(s.dump), c);
    LiveIsAll(db, 0);
    var zero := (i: nat) => 0;
    assert Stamp(s.dump, zero) == AtZero(s.dump);
    Snapshot.SnapshotRoundTrip(db, 0, s.dump, keys, zero, c, 0);
    LiveIsAll(ExecuteAll(map[], AtZero(s.dump), c), 0);
  }

  /** Commands applied to the dumped keyspace. */
  ghost function Onto(s: System, cmds: seq<Argv>, c: ScoreText): Db
    requires Served(s, c) && s.dumped.Some? && s.dumped.value <= |s.hist| && AllTimeless(cmds)
  {
    ExecuteAll(Joint(s, c), AtZero(cmds), c)
  }

  lemma {:induction false} OntoAppend(s: System, a: seq<Argv>, b: seq<Argv>, c: ScoreText)
    requires Served(s, c) && s.dumped.Some? && s.dumped.value <= |s.hist| && AllTimeless(a) && AllTimeless(b)
    ensures AllTimeless(a + b) && Onto(s, a + b, c) == ExecuteAll(Onto(s, a, c), AtZero(b), c)
  {
    hide Timeless, ExecuteAll, Joint;
    ExecuteAllAppend(Joint(s, c), AtZero(a), AtZero(b), c);
    assert AtZero(a) + AtZero(b) == AtZero(a + b);
  }

  /**
   * What the replica holds, in every reachable state with the snapshot applied: the dumped keyspace
   * and on top of it the commands of the feed that arrived, repetitions included.
   */
  lemma {:induction false} ReplicaHolds(acts: seq<Action>, s: System, c: ScoreText) returns (n: nat)
    requires Reaches(acts, s, c) && s.dumped.Some? && |s.dump| <= |s.applied|
    ensures !s.closed && Served(s, c) && s.dumped.value <= |s.hist| && n <= |s.twice + s.feed|
    ensures AllTimeless((s.twice + s.feed)[..n]) && s.replica == Onto(s, (s.twice + s.feed)[..n], c)
    ensures s.linked && s.taken == |s.wire| ==> n == |s.twice + s.feed|
  {
    hide Reaches, ExecuteAll, AllTimeless, Streams.Drain, EncodeAll, Joint, Logged, Carries, Loggable;
    EveryRunKeepsInvariant(acts, s, c);
    var j := ArrivedIsPrefix(s, s.taken, c);
    n := j - |s.dump|;
    var sent := (s.twice + s.feed)[..n];
    assert Stream(s)[..j] == s.dump + sent;
    SnapshotApplied(s, c);
    AppliedMore(s.dump, sent, (i: nat) => 0, c);
    assert Stamp(sent, (i: nat) => 0) == AtZero(sent);
  }

  lemma {:induction false} PartOfDump(cmds: seq<Argv>, keys: seq<Bytes>, db: Db, c: ScoreText, j: nat)
    requires Snapshot.DumpSeq(cmds, keys, db, c) && Permanent(db)
    ensures |cmds| == |keys| && (j <= |cmds| ==> Snapshot.DumpSeq(cmds[..j], keys[..j], db, c))
    decreases |keys|
  {
    hide Snapshot.Dumps;
    if keys != [] {
      var n := |keys| - 1;
      PartOfDump(cmds[..|cmds| - 1], keys[..n], db, c, Min(j, |cmds| - 1));
      if j < |cmds| {
        assert cmds[..|cmds| - 1][..j] == cmds[..j] && keys[..n][..j] == keys[..j];
      } else {
        assert j == |cmds| ==> cmds[..j] == cmds && keys[..j] == keys;
      }
    }
  }

  /** As long as the snapshot is not through, the replica holds the entries that arrived, in dump order. */
  lemma {:induction false} SnapshotPartway(s: System, keys: seq<Bytes>, j: nat, c: ScoreText)
    requires Served(s, c) && s.dumped.Some? && s.dumped.value <= |s.hist| && j <= |s.dump|
    requires Carries(s.dump, keys, Joint(s, c), c)
    ensures |s.dump| == |keys| && AllTimeless(s.dump[..j])
    ensures ExecuteAll(map[], AtZero(s.dump[..j]), c) == Snapshot.Only(Joint(s, c), keys[..j])
  {
    hide Served, ExecuteAll, Live, Snapshot.DumpSeq, Snapshot.Printable, Snapshot.Only, Timeless, Fits, Joint;
    var db := Joint(s, c);
    JointIsClean(s, c);
    PartOfDump(s.dump, keys, db, c, j);
    DumpIsTimeless(s.dump[..j], keys[..j], db, c);
    ExecuteAllIsTimeless(map[], AtZero(s.dump[..j]), AtZero(s.dump[..j]), c);
    var zero := (i: nat) => 0;
    assert Stamp(s.dump[..j], zero) == AtZero(s.dump[..j]);
    Snapshot.RestoreKeys(s.dump[..j], keys[..j], db, zero, c);
    OnlyIsPermanent(db, keys[..j]);
    LiveIsAll(Snapshot.Only(db, keys[..j]), 0);
    LiveIsAll(ExecuteAll(map[], AtZero(s.dump[..j]), c), 0);
  }

  lemma OnlyIsPermanent(db: Db, keys: seq<Bytes>)
    requires Permanent(db)
    ensures Permanent(Snapshot.Only(db, keys))
  {
  }

  /** So in every reachable state before that point. */
  lemma {:induction false} ReplicaPartway(acts: seq<Action>, s: System, c: ScoreText) returns (keys: seq<Bytes>)
    requires Reaches(acts, s, c) && s.dumped.Some? && |s.applied| <= |s.dump|
    ensures Served(s, c) && s.dumped.value <= |s.hist| && Snapshot.IsDump(s.dump, keys, Joint(s, c), c) && |s.dump| == |keys|
    ensures s.replica == Snapshot.Only(Joint(s, c), keys[..|s.applied|])
  {
    hide Reaches, ExecuteAll, AllTimeless, Streams.Drain, EncodeAll, Joint, Logged, Loggable, Snapshot.IsDump, Snapshot.Only, Served;
    EveryRunKeepsInvariant(acts, s, c);
    var j := ArrivedIsPrefix(s, s.taken, c);
    keys :| Carries(s.dump, keys, Joint(s, c), c);
    SnapshotPartway(s, keys, |s.applied|, c);
    assert Stream(s)[..j] == s.dump[..j];
  }

  /** What the primary holds: the dumped keyspace and everything flagged since. */
  lemma {:induction false} PrimaryHolds(s: System, c: ScoreText)
    requires Served(s, c) && Accounted(s, c) && s.dumped.Some? && s.flight.None?
    ensures AllTimeless(s.lost + s.feed) && s.primary == Onto(s, s.lost + s.feed, c)
  {
    hide ExecuteAll, Logged, Timeless, Fits, Permanent, Carries, Loggable;
    var db, since := Joint(s, c), s.hist[s.dumped.value..];
    var log := s.lost + s.feed;
    SendableAppend(s.lost, s.feed);
    assert log + [] == log;
    JointIsClean(s, c);
    assert CommandsOf(AtZero(log)) == log;
    LogRebuildsAnytime(db, since, AtZero(log), c);
    assert s.hist == s.hist[..s.dumped.value] + since;
    ExecuteAllAppend(map[], s.hist[..s.dumped.value], since, c);
  }

  /** The commands that raced the handshake change nothing in the dumped keyspace. */
  ghost predicate Harmless(s: System, c: ScoreText)
    requires Served(s, c) && Accounted(s, c) && s.dumped.Some?
  {
    Onto(s, s.lost, c) == Joint(s, c) && Onto(s, s.twice, c) == Joint(s, c)
  }

  /** The snapshot was taken, and whatever raced the handshake is harmless. */
  ghost predicate Unharmed(s: System, c: ScoreText) {
    s.dumped.Some? && Served(s, c) && Accounted(s, c) && Harmless(s, c)
  }

  /** The primary's keyspace after the first `i` commands it served. */
  ghost function Moment(s: System, i: nat, c: ScoreText): Db {
    if Runnable(s.hist) && i <= |s.hist| then ExecuteAll(map[], s.hist[..i], c) else map[]
  }

  /** How many of the first `n` commands behind the snapshot are no repetitions. */
  function Fed(s: System, n: nat): nat {
    if n < |s.twice| then 0 else n - |s.twice|
  }

  /**
   * The moment that the snapshot and the first `n` commands behind it stand for: the longest prefix
   * of what was served whose flagged commands since the dump went missing or are among them.
   */
  ghost function MomentOf(s: System, n: nat, c: ScoreText): nat {
    if s.dumped.None? || s.dumped.value > |s.hist| || !Runnable(s.hist) then 0
    else
      var at := s.dumped.value;
      at + Recovery.LogReach(ExecuteAll(map[], s.hist[..at], c), s.hist[at..], c, |s.lost| + Fed(s, n))
  }

  /** The moment the replica has reached. */
  ghost function Frontier(s: System, c: ScoreText): nat {
    MomentOf(s, Max(0, |s.applied| - |s.dump|), c)
  }

  /** After a harmless race, what arrived counts as if there had been none. */
  lemma {:induction false} HarmlessPrefix(s: System, n: nat, c: ScoreText)
    requires Served(s, c) && Accounted(s, c) && s.dumped.Some? && Harmless(s, c) && n <= |s.twice + s.feed|
    ensures Fed(s, n) <= |s.feed| && AllTimeless((s.twice + s.feed)[..n]) && AllTimeless(s.lost + s.feed[..Fed(s, n)])
    ensures Onto(s, (s.twice + s.feed)[..n], c) == Onto(s, s.lost + s.feed[..Fed(s, n)], c)
  {
    hide ExecuteAll, Logged, Timeless, Fits, Carries, Loggable, Joint, Served;
    var k, m := |s.twice|, Fed(s, n);
    PrefixTimeless(s.feed, m);
    OntoAppend(s, s.lost, s.feed[..m], c);
    OntoAppend(s, s.twice, s.feed[..m], c);
    NothingOnto(s, c);
    if n >= k {
      assert (s.twice + s.feed)[..n] == s.twice + s.feed[..m];
    } else {
      assert (s.twice + s.feed)[..n] == [] && s.feed[..m] == [];
    }
  }

  lemma {:induction false} NothingOnto(s: System, c: ScoreText)
    requires Served(s, c) && s.dumped.Some? && s.dumped.value <= |s.hist|
    ensures Onto(s, [], c) == Joint(s, c)
  {
  }

  /** The first `j` commands of the stream, with the whole snapshot among them, are a moment of the past. */
  lemma {:induction false} ArrivedIsPast(s: System, j: nat, c: ScoreText)
    requires Unharmed(s, c) && |s.dump| <= j <= |Stream(s)|
    ensures AllTimeless(Stream(s)[..j]) && s.dumped.value <= MomentOf(s, j - |s.dump|, c) <= |s.hist|
    ensures ExecuteAll(map[], AtZero(Stream(s)[..j]), c) == Moment(s, MomentOf(s, j - |s.dump|, c), c)
    ensures j == |Stream(s)| && s.flight.None? ==> MomentOf(s, j - |s.dump|, c) == |s.hist|
  {
    hide ExecuteAll, Logged, Timeless, Fits, Permanent, Carries, Loggable, Harmless;
    var n := j - |s.dump|;
    var sent := (s.twice + s.feed)[..n];
    assert Stream(s)[..j] == s.dump + sent;
    HarmlessPrefix(s, n, c);
    SnapshotApplied(s, c);
    StreamIsSendable(s, c);
    PrefixTimeless(Stream(s), j);
    AppliedMore(s.dump, sent, (i: nat) => 0, c);
    assert Stamp(sent, (i: nat) => 0) == AtZero(sent);
    PastOf(s, n, c);
  }

  /** What was flagged first since the dump, on top of it, is a moment of the primary's past. */
  lemma {:induction false} PastOf(s: System, n: nat, c: ScoreText)
    requires Served(s, c) && Accounted(s, c) && s.dumped.Some?
    requires Fed(s, n) <= |s.feed| && AllTimeless(s.lost + s.feed[..Fed(s, n)])
    ensures Onto(s, s.lost + s.feed[..Fed(s, n)], c) == Moment(s, MomentOf(s, n, c), c)
    ensures Fed(s, n) == |s.feed| && s.flight.None? ==> MomentOf(s, n, c) == |s.hist|
  {
    hide ExecuteAll, Logged, Timeless, Fits, Permanent, Carries, Loggable;
    var db, at, m := Joint(s, c), s.dumped.value, Fed(s, n);
    var since, part := s.hist[at..], s.lost + s.feed[..m];
    var log := CommandsOf(Logged(db, since, c));
    assert log[..|part|] == part;
    assert CommandsOf(AtZero(part)) == part;
    JointIsClean(s, c);
    Recovery.LogPrefixRebuilds(db, since, AtZero(part), c, |part|);
    var k := Recovery.LogReach(db, since, c, |part|);
    assert s.hist[..at + k] == s.hist[..at] + since[..k];
    ExecuteAllAppend(map[], s.hist[..at], since[..k], c);
  }

  lemma {:induction false} MomentIsPrimary(s: System, c: ScoreText)
    requires Served(s, c)
    ensures Moment(s, |s.hist|, c) == s.primary
  {
    hide ExecuteAll, Timeless, Fits;
    assert s.hist[..|s.hist|] == s.hist;
  }

  /**
   * Replica prefix consistency. In every reachable state with a harmless race, or none, once the
   * snapshot has been applied the replica's keyspace is the primary's after a prefix of what it
   * served, not before the snapshot: the longest whose flagged commands arrived. The stream is never
   * found corrupt, and an unbroken link read to its end makes the two equal.
   */
  lemma {:induction false} ReplicaFollowsPrimary(acts: seq<Action>, s: System, c: ScoreText)
    requires Reaches(acts, s, c) && Unharmed(s, c) && |s.dump| <= |s.applied|
    ensures !s.closed && s.dumped.value <= Frontier(s, c) <= |s.hist| && s.replica == Moment(s, Frontier(s, c), c)
    ensures s.linked && s.taken == |s.wire| && s.flight.None? ==> Frontier(s, c) == |s.hist| && s.replica == s.primary
  {
    hide Reaches, ExecuteAll, Moment, MomentOf, AllTimeless, Harmless, EncodeAll, Streams.Drain, Served, Accounted;
    EveryRunKeepsInvariant(acts, s, c);
    var j := ArrivedIsPrefix(s, s.taken, c);
    ArrivedIsPast(s, j, c);
    MomentIsPrimary(s, c);
  }

  // ---------- the replica never goes back ----------

  /** Nothing is applied that was not sent. */
  lemma {:induction false} AppliedWasSent(s: System, c: ScoreText)
    requires Invariant(s, c) && s.dumped.Some?
    ensures |s.applied| <= |Stream(s)|
  {
    hide Served, Accounted, EncodeAll, Streams.Drain, ExecuteAll, AllTimeless;
    var j := ArrivedIsPrefix(s, s.taken, c);
  }

  lemma {:induction false} ServeAdvances(s: System, a: Action, c: ScoreText)
    requires Invariant(s, c) && a.Serve? && Enabled(s, a, c) && s.dumped.Some?
    ensures Frontier(s, c) <= Frontier(Next(s, a, c), c)
  {
    hide Execute, ExecuteAll, Fits, Carries, Logged, Streams.Drain, EncodeAll, Sendable, AllTimeless, Recovery.LogReach;
    var s', at, h := Next(s, a, c), s.dumped.value, Timed(a.argv, a.now);
    assert s'.hist[..at] == s.hist[..at] && s'.hist[at..] == s.hist[at..] + [h];
    var n := |s.lost| + Fed(s, Max(0, |s.applied| - |s.dump|));
    Recovery.LogReachGrows(ExecuteAll(map[], s.hist[..at], c), s.hist[at..], [h], c, n, n);
  }

  /** A longer log of the same history. */
  lemma {:induction false} MoreArrived(s: System, s': System, c: ScoreText)
    requires s.dumped.Some? && s'.dumped == s.dumped && s'.hist == s.hist
    requires |s.lost| + Fed(s, Max(0, |s.applied| - |s.dump|)) <= |s'.lost| + Fed(s', Max(0, |s'.applied| - |s'.dump|))
    ensures Frontier(s, c) <= Frontier(s', c)
  {
    hide ExecuteAll, Recovery.LogReach;
    var at := s.dumped.value;
    if at <= |s.hist| && Runnable(s.hist) {
      assert s.hist[at..] + [] == s.hist[at..];
      Recovery.LogReachGrows(ExecuteAll(map[], s.hist[..at], c), s.hist[at..], [], c,
                             |s.lost| + Fed(s, Max(0, |s.applied| - |s.dump|)),
                             |s'.lost| + Fed(s', Max(0, |s'.applied| - |s'.dump|)));
    }
  }

  lemma {:induction false} PropagateAdvances(s: System, a: Action, c: ScoreText)
    requires Invariant(s, c) && a.Propagate? && Enabled(s, a, c) && s.dumped.Some?
    ensures Frontier(s, c) <= Frontier(Next(s, a, c), c)
  {
    hide Execute, ExecuteAll, Fits, Carries, Streams.Drain, EncodeAll, Encode, Sendable, AllTimeless, Frontier, Joint;
    AppliedWasSent(s, c);
    if s.registered && s.early {
      assert s.hist[s.dumped.value..] == [];
      assert s.lost == [] && s.feed == [];
    }
    MoreArrived(s, Next(s, a, c), c);
  }

  lemma {:induction false} StepAdvances(s: System, a: Action, c: ScoreText)
    requires Invariant(s, c) && Enabled(s, a, c) && s.dumped.Some?
    ensures var s' := Next(s, a, c);
            s'.dumped == s.dumped && s'.dump == s.dump && s.hist <= s'.hist && s.applied <= s'.applied && Frontier(s, c) <= Frontier(s', c)
  {
    hide Execute, ExecuteAll, Fits, Carries, Streams.Drain, EncodeAll, Encode, Served, Accounted, Sent, Followed, Frontier;
    match a
    case Serve(_, _) => ServeAdvances(s, a, c);
    case Propagate(_) => PropagateAdvances(s, a, c);
    case Dump(_, _) => assert false;
    case Register(_) => MoreArrived(s, Next(s, a, c), c);
    case Read(_, _) => MoreArrived(s, Next(s, a, c), c);
  }

  /** The actions determine the state. */
  lemma {:induction false} ReachesOne(acts: seq<Action>, s: System, t: System, c: ScoreText)
    requires Reaches(acts, s, c) && Reaches(acts, t, c)
    ensures s == t
  {
    hide Next, Enabled;
    if acts != [] {
      var n := |acts| - 1;
      var p :| Reaches(acts[..n], p, c) && Enabled(p, acts[n], c) && s == Next(p, acts[n], c);
      var q :| Reaches(acts[..n], q, c) && Enabled(q, acts[n], c) && t == Next(q, acts[n], c);
      ReachesOne(acts[..n], p, q, c);
    }
  }

  /** Whatever is done next, the replica's moment does not move back, and its history is only added to. */
  lemma {:induction false} FrontierAdvances(acts: seq<Action>, s: System, more: seq<Action>, s': System, c: ScoreText)
    requires Reaches(acts, s, c) && Reaches(acts + more, s', c) && s.dumped.Some?
    ensures s'.dumped == s.dumped && s'.dump == s.dump && s.hist <= s'.hist && s.applied <= s'.applied
    ensures Frontier(s, c) <= Frontier(s', c)
    decreases |more|
  {
    hide Next, Enabled, Invariant, Frontier;
    var all := acts + more;
    if more == [] {
      assert all == acts;
      ReachesOne(acts, s, s', c);
    } else {
      var n := |all| - 1;
      assert all[..n] == acts + more[..|more| - 1];
      var p :| Reaches(all[..n], p, c) && Enabled(p, all[n], c) && s' == Next(p, all[n], c);
      FrontierAdvances(acts, s, more[..|more| - 1], p, c);
      EveryRunKeepsInvariant(all[..n], p, c);
      StepAdvances(p, all[n], c);
    }
  }

  /**
   * The replica never goes back. Of any two states of a run, the later one shows the same moment of
   * the primary's history as the earlier or one after it.
   */
  lemma {:induction false} ReplicaNeverGoesBack(acts: seq<Action>, s: System, more: seq<Action>, s': System, c: ScoreText)
    requires Reaches(acts, s, c) && Reaches(acts + more, s', c)
    requires Unharmed(s, c) && Unharmed(s', c) && |s.dump| <= |s.applied|
    ensures s.replica == Moment(s', Frontier(s, c), c) && s'.replica == Moment(s', Frontier(s', c), c)
    ensures Frontier(s, c) <= Frontier(s', c) <= |s'.hist|
  {
    hide Reaches, ExecuteAll, Harmless, Served, Accounted, Frontier;
    FrontierAdvances(acts, s, more, s', c);
    ReplicaFollowsPrimary(acts, s, c);
    ReplicaFollowsPrimary(acts + more, s', c);
    EveryRunKeepsInvariant(acts, s, c);
    EveryRunKeepsInvariant(acts + more, s', c);
    SameMoment(s, s', Frontier(s, c), c);
  }

  lemma {:induction false} SameMoment(s: System, s': System, i: nat, c: ScoreText)
    requires Served(s, c) && Served(s', c) && s.hist <= s'.hist && i <= |s.hist|
    ensures Moment(s, i, c) == Moment(s', i, c)
  {
    hide ExecuteAll, Timeless, Fits;
    assert s.hist[..i] == s'.hist[..i];
  }

  /** No command raced the handshake. */
  lemma {:induction false} QuietIsHarmless(s: System, c: ScoreText)
    requires Served(s, c) && Accounted(s, c) && s.dumped.Some? && s.lost == [] && s.twice == []
    ensures Unharmed(s, c)
  {
    hide Joint, Carries, Logged, Served;
    NothingOnto(s, c);
  }

  /** An unbroken link read to its end has delivered everything. */
  lemma {:induction false} AllArrived(acts: seq<Action>, s: System, c: ScoreText)
    requires Reaches(acts, s, c) && s.dumped.Some? && s.linked && s.taken == |s.wire|
    ensures s.applied == Stream(s) && |s.dump| <= |s.applied|
  {
    hide Reaches, ExecuteAll, AllTimeless, Streams.Drain, EncodeAll, Served, Accounted;
    EveryRunKeepsInvariant(acts, s, c);
    var j := ArrivedIsPrefix(s, s.taken, c);
    assert Stream(s)[..j] == Stream(s);
  }

  /**
   * Catching up. In every reachable state with the link up and a harmless race, or none, a replica
   * that reads what is left on the wire, at whatever times, equals the primary.
   */
  lemma {:induction false} CatchesUp(acts: seq<Action>, s: System, clock: nat -> nat, c: ScoreText)
    requires Reaches(acts, s, c) && Unharmed(s, c) && s.linked && s.flight.None? && s.taken < |s.wire|
    ensures var rest := Action.Read(|s.wire| - s.taken, clock);
            Enabled(s, rest, c) && Next(s, rest, c).replica == s.primary
  {
    hide ExecuteAll, AllTimeless, Streams.Drain, EncodeAll, Served, Accounted, Reaches, Onto, Joint;
    EveryRunKeepsInvariant(acts, s, c);
    var rest := Action.Read(|s.wire| - s.taken, clock);
    var s' := Next(s, rest, c);
    ReachesNext(acts, s, rest, c);
    EveryRunKeepsInvariant(acts + [rest], s', c);
    AllArrived(acts + [rest], s', c);
    StillHarmless(s, s', c);
    ReplicaFollowsPrimary(acts + [rest], s', c);
  }

  lemma {:induction false} StillHarmless(s: System, s': System, c: ScoreText)
    requires Unharmed(s, c) && Served(s', c) && Accounted(s', c)
    requires s' == s.(taken := s'.taken, buf := s'.buf, applied := s'.applied, replica := s'.replica, closed := s'.closed)
    ensures Unharmed(s', c)
  {
    hide ExecuteAll, Carries, Logged, Timeless, Fits;
  }

  /**
   * The race, exactly. When the replica has read all that was sent up to the registration and what
   * raced it, it equals the primary if and only if the raced commands change nothing in the dumped
   * keyspace: one that went missing must not have been needed, one that came twice must not matter.
   */
  lemma {:induction false} RaceIsExact(acts: seq<Action>, s: System, c: ScoreText)
    requires Reaches(acts, s, c) && s.registered && s.linked && s.taken == |s.wire| && s.flight.None? && s.feed == []
    ensures Served(s, c) && s.dumped.Some? && s.dumped.value <= |s.hist| && AllTimeless(s.lost + s.twice)
    ensures s.replica == s.primary <==> Onto(s, s.lost + s.twice, c) == Joint(s, c)
  {
    hide Reaches, ExecuteAll, AllTimeless, Streams.Drain, EncodeAll, Carries, Logged, Joint, Onto;
    EveryRunKeepsInvariant(acts, s, c);
    AllArrived(acts, s, c);
    var n := ReplicaHolds(acts, s, c);
    PrimaryHolds(s, c);
    NothingOnto(s, c);
    assert (s.twice + s.feed)[..n] == s.twice && s.lost + s.feed == s.lost;
    if s.twice == [] {
      assert s.lost + s.twice == s.lost;
    } else {
      assert s.lost + s.twice == s.twice;
    }
  }
}
