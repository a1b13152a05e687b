/** Restarting from files: a log cut anywhere restores a moment of the past, a snapshot the dataset. */
module Recovery {
  import opened Basics
  import opened Resp
  import opened Frames
  import opened Keyspace
  import opened Commands
  import opened CommandLog
  import opened ExpiryFree
  import opened Persistence
  import opened Shards
  import opened Stores
  import Snapshot
  import SnapshotSizes
  import Streams

  /** How long the longest prefix of the history is that logs at most `n` commands. */
  ghost function LogReach(db: Db, hist: seq<Timed>, c: ScoreText, n: nat): (i: nat)
    requires Runnable(hist)
    ensures i <= |hist|
    decreases |hist|
  {
    if |Logged(db, hist, c)| <= n then |hist| else LogReach(db, hist[..|hist| - 1], c, n)
  }

  /** A longer history and a longer log reach at least as far. */
  lemma {:induction false} LogReachGrows(db: Db, hist: seq<Timed>, more: seq<Timed>, c: ScoreText, n: nat, m: nat)
    requires Runnable(hist) && Runnable(more) && n <= m
    ensures Runnable(hist + more) && LogReach(db, hist, c, n) <= LogReach(db, hist + more, c, m)
    decreases |hist| + |more|, |more|
  {
    hide ExecuteAll, Execute;
    var all := hist + more;
    if more != [] {
      LogReachGrows(db, hist, more[..|more| - 1], c, n, m);
      assert all[..|all| - 1] == hist + more[..|more| - 1];
    } else {
      assert all == hist;
      if |Logged(db, hist, c)| > m {
        LogReachGrows(db, hist[..|hist| - 1], [], c, n, m);
        assert hist[..|hist| - 1] + [] == hist[..|hist| - 1];
      }
    }
  }

  /** Every prefix of the log is the log of a prefix, the longest one with that log. */
  lemma {:induction false} LogPrefix(db: Db, hist: seq<Timed>, c: ScoreText, j: nat)
    requires Runnable(hist) && j <= |Logged(db, hist, c)|
    ensures var i := LogReach(db, hist, c, j);
            && Logged(db, hist[..i], c) == Logged(db, hist, c)[..j]
            && (i < |hist| ==> |Logged(db, hist[..i + 1], c)| == j + 1)
    decreases |hist|
  {
    hide Execute;
    var i := LogReach(db, hist, c, j);
    if j == |Logged(db, hist, c)| {
      assert hist[..i] == hist;
    } else {
      var init := hist[..|hist| - 1];
      LogPrefix(db, init, c, j);
      assert hist[..i] == init[..i];
      if i < |init| {
        assert hist[..i + 1] == init[..i + 1];
      } else {
        assert hist[..i + 1] == hist;
      }
    }
  }

  /** Replaying the first `j` logged commands at any times gives the keyspace of a prefix. */
  lemma {:induction false} LogPrefixRebuilds(db: Db, hist: seq<Timed>, replay: seq<Timed>, c: ScoreText, j: nat)
    requires NoneEmpty(db) && Permanent(db) && Runnable(hist)
    requires forall i | 0 <= i < |hist| :: Timeless(hist[i].argv)
    requires j <= |Logged(db, hist, c)| && CommandsOf(replay) == CommandsOf(Logged(db, hist, c))[..j]
    ensures Runnable(replay) && ExecuteAll(db, replay, c) == ExecuteAll(db, hist[..LogReach(db, hist, c, j)], c)
  {
    hide Execute, Timeless, Permanent, Logged, LogReach;
    LogPrefix(db, hist, c, j);
    assert CommandsOf(Logged(db, hist, c)[..j]) == CommandsOf(Logged(db, hist, c))[..j];
    LogRebuildsAnytime(db, hist[..LogReach(db, hist, c, j)], replay, c);
  }

  /** What the log file holds after a history on an empty store. */
  function LogFile(hist: seq<Timed>, c: ScoreText): Bytes
    requires Runnable(hist)
  {
    EncodeAll(CommandsOf(Logged(map[], hist, c)))
  }

  /**
   * Crash recovery. Whatever byte the log of an expiry-free history was cut at, and whenever it is
   * replayed, the rebuilt keyspace is the one after some prefix of the history: the longest one
   * whose log survived whole.
   */
  lemma CrashRecovery(hist: seq<Timed>, m: nat, clock: nat -> nat, c: ScoreText) returns (i: nat)
    requires Runnable(hist) && forall i | 0 <= i < |hist| :: Timeless(hist[i].argv)
    requires Loggable(CommandsOf(Logged(map[], hist, c))) && m <= |LogFile(hist, c)|
    ensures i <= |hist| && |LogFile(hist[..i], c)| <= m
    ensures i < |hist| ==> m < |LogFile(hist[..i + 1], c)|
    ensures var replay := Stamp(Streams.Drain(LogFile(hist, c)[..m]).cmds, clock);
            Runnable(replay) && ExecuteAll(map[], replay, c) == ExecuteAll(map[], hist[..i], c)
  {
    hide Execute, Timeless, EncodeAll, Streams.Drain, Loggable, LogReach;
    var log := Logged(map[], hist, c);
    var cmds := CommandsOf(log);
    var j := TornLog(cmds, m);
    var replay := Stamp(cmds[..j], clock);
    assert CommandsOf(replay) == cmds[..j];
    LogPrefix(map[], hist, c, j);
    LogPrefixRebuilds(map[], hist, replay, c, j);
    i := LogReach(map[], hist, c, j);
    assert CommandsOf(log[..j]) == cmds[..j];
    if i < |hist| {
      NextLog(map[], hist, c, i, j);
      assert CommandsOf(log[..j + 1]) == cmds[..j + 1];
    }
  }

  /** Logs of prefixes are prefixes of the log. */
  lemma {:induction false} LogGrows(db: Db, hist: seq<Timed>, c: ScoreText, i: nat)
    requires Runnable(hist) && i <= |hist|
    ensures Logged(db, hist[..i], c) <= Logged(db, hist, c)
    decreases |hist|
  {
    hide Execute;
    if i == |hist| {
      assert hist[..i] == hist;
    } else {
      LogGrows(db, hist[..|hist| - 1], c, i);
      assert hist[..|hist| - 1][..i] == hist[..i];
    }
  }

  lemma {:induction false} NextLog(db: Db, hist: seq<Timed>, c: ScoreText, i: nat, j: nat)
    requires Runnable(hist) && i < |hist| && |Logged(db, hist[..i + 1], c)| == j + 1
    ensures j < |Logged(db, hist, c)| && Logged(db, hist[..i + 1], c) == Logged(db, hist, c)[..j + 1]
  {
    hide Logged;
    LogGrows(db, hist, c, i + 1);
  }

  /** Start-up: a fresh unbounded store and whatever the file holds. */
  method Load(shards: nat, router: Bytes -> nat, data: Bytes, clock: nat -> nat, c: ScoreText) returns (st: Store)
    requires Monotone(clock)
    ensures fresh(st) && st.Valid()
    ensures var cmds := Streams.Drain(data).cmds;
            Shows(st.Contents(), map[], cmds, clock, c, LastTime(clock, |cmds|))
  {
    hide Store.Valid, Shard.Valid, Shows, Monotone, Streams.Drain;
    st := new Store(shards, 0, router);
    var applied := ReplayFile(st, data, clock, c);
  }

  /** Start-up with a torn log on disk. */
  method RecoverLog(shards: nat, router: Bytes -> nat, data: Bytes, clock: nat -> nat, c: ScoreText,
                    ghost hist: seq<Timed>, ghost m: nat) returns (st: Store, ghost i: nat)
    requires Monotone(clock)
    requires Runnable(hist) && forall i | 0 <= i < |hist| :: Timeless(hist[i].argv)
    requires Loggable(CommandsOf(Logged(map[], hist, c)))
    requires m <= |LogFile(hist, c)| && data == LogFile(hist, c)[..m]
    ensures fresh(st) && st.Valid()
    ensures i <= |hist| && |LogFile(hist[..i], c)| <= m && (i < |hist| ==> m < |LogFile(hist[..i + 1], c)|)
    ensures forall t | LastTime(clock, |Streams.Drain(data).cmds|) <= t ::
              Live(st.Contents(), t) == ExecuteAll(map[], hist[..i], c)
  {
    hide Store.Valid, Shard.Valid, Live, LogFile, Logged, Timeless, ExecuteAll, Loggable, Shows, Streams.Drain;
    st := Load(shards, router, data, clock, c);
    i := CrashRecovery(hist, m, clock, c);
    ghost var cmds := Streams.Drain(data).cmds;
    ShownFromThen(st.Contents(), hist[..i], cmds, clock, c, LastTime(clock, |cmds|));
  }

  lemma {:induction false} ShownFromThen(contents: Db, hist: seq<Timed>, cmds: seq<Argv>, clock: nat -> nat, c: ScoreText, from: nat)
    requires Shows(contents, map[], cmds, clock, c, from)
    requires Runnable(hist) && forall i | 0 <= i < |hist| :: Timeless(hist[i].argv)
    requires ExecuteAll(map[], Stamp(cmds, clock), c) == ExecuteAll(map[], hist, c)
    ensures forall t | from <= t :: Live(contents, t) == ExecuteAll(map[], hist, c)
  {
    hide Live, Timeless, ExecuteAll;
    ExecuteAllIsTimeless(map[], hist, hist, c);
    forall t | from <= t ensures Live(contents, t) == ExecuteAll(map[], hist, c) {
      LiveLater(contents, from, t);
      LiveLater(ExecuteAll(map[], hist, c), from, t);
      LiveIsAll(ExecuteAll(map[], hist, c), t);
    }
  }

  // ---------- snapshots ----------

  /** What replaying a dump restores: the entries before the first that does not fit, all of them if all fit. */
  lemma DumpRestores(image: Db, cmds: seq<Argv>, keys: seq<Bytes>, clock: nat -> nat, c: ScoreText) returns (i: nat)
    requires Snapshot.IsDump(cmds, keys, image, c) && Snapshot.Restorable(image, c) && Monotone(clock)
    ensures i <= |keys| && FitsUpTo(image, keys, c, i)
    ensures var got := Streams.Drain(EncodeAll(cmds)).cmds;
            && |got| <= 2 * |keys|
            && Shows(Snapshot.Only(image, keys[..i]), map[], got, clock, c, LastTime(clock, |got|))
  {
    hide Shows, Snapshot.DumpSeq, Snapshot.Only, EncodeAll, Streams.Drain, Monotone, Fits, SnapshotSizes.EntryFits;
    RestorableIsMachine(image, c);
    var n;
    n, i := SnapshotSizes.FindReadable(cmds, keys, image, c);
    SnapshotSizes.DrainStops(cmds, n);
    Snapshot.RestoreKeys(cmds[..n], keys[..i], image, clock, c);
    DumpLength(cmds[..n], keys[..i], image, c);
  }

  /** The first `i` entries fit, and no more when there is one more. */
  ghost predicate FitsUpTo(image: Db, keys: seq<Bytes>, c: ScoreText, i: nat) {
    && i <= |keys| && (forall j | 0 <= j < |keys| :: keys[j] in image)
    && (forall j | 0 <= j < i :: SnapshotSizes.EntryFits(keys[j], image[keys[j]].value, c))
    && (i < |keys| ==> !SnapshotSizes.EntryFits(keys[i], image[keys[i]].value, c))
  }

  lemma RestorableIsMachine(image: Db, c: ScoreText)
    requires Snapshot.Restorable(image, c)
    ensures SnapshotSizes.MachineTimes(image)
  {
  }

  lemma {:induction false} DumpLength(cmds: seq<Argv>, keys: seq<Bytes>, db: Db, c: ScoreText)
    requires Snapshot.DumpSeq(cmds, keys, db, c)
    ensures |cmds| <= 2 * |keys|
    decreases |keys|
  {
    hide Snapshot.Dumps;
    if keys != [] {
      var n := |cmds| - Snapshot.DumpLen(db[keys[|keys| - 1]]);
      DumpLength(cmds[..n], keys[..|keys| - 1], db, c);
    }
  }

  lemma ShownLater(copy: Db, part: Db, got: seq<Argv>, clock: nat -> nat, c: ScoreText, keys: nat, t: nat)
    requires Shows(copy, map[], got, clock, c, LastTime(clock, |got|))
    requires Shows(part, map[], got, clock, c, LastTime(clock, |got|))
    requires Monotone(clock) && |got| <= 2 * keys && LastTime(clock, 2 * keys) <= t
    ensures Live(copy, t) == Live(part, t)
  {
    hide Live, ExecuteAll;
    LiveLater(copy, LastTime(clock, |got|), t);
    LiveLater(part, LastTime(clock, |got|), t);
  }

  lemma OnlyAll(image: Db, keys: seq<Bytes>)
    requires forall k :: k in keys <==> k in image
    ensures Snapshot.Only(image, keys) == image
  {
  }

  /**
   * Dump one store, replay the bytes into a fresh unbounded one with any shard layout. If every
   * entry fits the parser's limits, the copy shows from then on what the original shows, for as long
   * as the original is left alone. Otherwise it shows the entries that the dump lists before the
   * first one that does not fit.
   */
  method CopyBySnapshot(st: Store, now: nat, shards: nat, router: Bytes -> nat, clock: nat -> nat, c: ScoreText)
    returns (copy: Store, ghost keys: seq<Bytes>, ghost i: nat)
    requires st.Valid() && Monotone(clock) && Snapshot.Restorable(Live(st.Contents(), now), c)
    ensures fresh(copy) && copy.Valid()
    ensures Snapshot.Distinct(keys) && forall k :: k in keys <==> k in Live(st.Contents(), now)
    ensures FitsUpTo(Live(st.Contents(), now), keys, c, i)
    ensures forall t | LastTime(clock, 2 * |keys|) <= t ::
              Live(copy.Contents(), t) == Live(Snapshot.Only(Live(st.Contents(), now), keys[..i]), t)
    ensures SnapshotSizes.DumpFits(Live(st.Contents(), now), c) ==>
              forall t | now <= t && LastTime(clock, 2 * |keys|) <= t :: Live(copy.Contents(), t) == Live(st.Contents(), t)
  {
    hide Store.Valid, Store.Contents, Shard.Valid, Live, Snapshot.DumpSeq, Snapshot.Restorable, Snapshot.Only, Shows, Monotone,
         EncodeAll, Streams.Drain, LastTime, SnapshotSizes.EntryFits;
    var out;
    ghost var cmds;
    out, cmds, keys := Snapshot.DumpCommands(st, now, c);
    ghost var db := st.Contents();
    ghost var image := Live(db, now);
    copy := Load(shards, router, out, clock, c);
    assert st.Contents() == db;
    i := DumpRestores(image, cmds, keys, clock, c);
    ghost var got := Streams.Drain(EncodeAll(cmds)).cmds;
    forall t | LastTime(clock, 2 * |keys|) <= t
      ensures Live(copy.Contents(), t) == Live(Snapshot.Only(image, keys[..i]), t)
    {
      ShownLater(copy.Contents(), Snapshot.Only(image, keys[..i]), got, clock, c, |keys|, t);
    }
    if SnapshotSizes.DumpFits(image, c) {
      assert keys[..i] == keys;
      OnlyAll(image, keys);
      forall t | now <= t && LastTime(clock, 2 * |keys|) <= t ensures Live(copy.Contents(), t) == Live(db, t) {
        LiveLater(db, now, t);
      }
    }
  }
}
