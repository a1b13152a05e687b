/** Replaying a log or a snapshot: a torn tail costs only the command it cuts. */
module Persistence {
  import opened Basics
  import opened Resp
  import opened Frames
  import opened Keyspace
  import opened Commands
  import opened CommandLog
  import opened Shards
  import opened Stores
  import FastPath
  import Streams

  // ---------- torn logs ----------

  /** What the writers append: non-empty commands within the parser's limits. */
  predicate Loggable(cmds: seq<Argv>) {
    forall i | 0 <= i < |cmds| :: cmds[i] != [] && Fits(cmds[i])
  }

  /**
   * For every cut of a log, parsing yields exactly the commands whose encodings lie wholly before
   * the cut, in order, no error, and nothing of the command that was cut.
   */
  lemma {:induction false} TornLog(cmds: seq<Argv>, m: nat) returns (j: nat)
    requires Loggable(cmds) && m <= |EncodeAll(cmds)|
    ensures j <= |cmds| && |EncodeAll(cmds[..j])| <= m
    ensures j < |cmds| ==> m < |EncodeAll(cmds[..j + 1])|
    ensures Streams.Drain(EncodeAll(cmds)[..m]) == Streams.Outcome(cmds[..j], |EncodeAll(cmds[..j])|, None)
    ensures Streams.LinesBounded(EncodeAll(cmds)[..m])
    decreases |cmds|
  {
    hide Encode, ParseFrame;
    if cmds == [] {
      j := 0;
      Streams.EmptyNeedsMore();
    } else {
      var e, rest := Encode(cmds[0]), EncodeAll(cmds[1..]);
      var cut := EncodeAll(cmds)[..m];
      if m < |e| {
        j := 0;
        assert cut == e[..m];
        StrictPrefixNeedsMore(cmds[0], m);
        assert cmds[..1] == [cmds[0]] && cmds[..1][1..] == [];
        assert EncodeAll(cmds[..1]) == e + EncodeAll([]);
      } else {
        var i := TornLog(cmds[1..], m - |e|);
        j := i + 1;
        assert cut == e + rest[..m - |e|];
        FrameRoundTrip(cmds[0], rest[..m - |e|]);
        StartsWithStar(cmds[0]);
        assert cut[|e|..] == rest[..m - |e|];
        PrefixOfCons(cmds, i);
        if i < |cmds[1..]| {
          PrefixOfCons(cmds, i + 1);
        }
      }
    }
  }

  lemma StartsWithStar(argv: Argv)
    ensures |Encode(argv)| > 0 && Encode(argv)[0] == STAR
  {
  }

  lemma PrefixOfCons(cmds: seq<Argv>, i: nat)
    requires cmds != [] && i <= |cmds| - 1
    ensures cmds[..i + 1] == [cmds[0]] + cmds[1..][..i]
    ensures EncodeAll(cmds[..i + 1]) == Encode(cmds[0]) + EncodeAll(cmds[1..][..i])
  {
    assert cmds[..i + 1][1..] == cmds[1..][..i];
  }

  /** A log that was not torn is read back whole. */
  lemma {:induction false} WholeLog(cmds: seq<Argv>)
    requires Loggable(cmds)
    ensures Streams.Drain(EncodeAll(cmds)).cmds == cmds && Streams.Drain(EncodeAll(cmds)).error.None?
    ensures Streams.LinesBounded(EncodeAll(cmds))
  {
    hide Encode, ParseFrame, Fits;
    var all := EncodeAll(cmds);
    var j := TornLog(cmds, |all|);
    assert all[..|all|] == all;
    if j < |cmds| {
      assert cmds[..j + 1] + cmds[j + 1..] == cmds;
      EncodeAllAppend(cmds[..j + 1], cmds[j + 1..]);
      assert false;
    }
    assert cmds[..j] == cmds;
  }

  // ---------- replay ----------

  /** The commands with the clock readings the replay saw. */
  function Stamp(cmds: seq<Argv>, clock: nat -> nat): (h: seq<Timed>)
    ensures |h| == |cmds| && forall i | 0 <= i < |cmds| :: h[i] == Timed(cmds[i], clock(i))
  {
    seq(|cmds|, i requires 0 <= i < |cmds| => Timed(cmds[i], clock(i)))
  }

  ghost predicate Monotone(clock: nat -> nat) {
    forall i, j | 0 <= i <= j :: clock(i) <= clock(j)
  }

  lemma {:induction false} DrainedAreNonEmpty(buf: Bytes)
    ensures forall i | 0 <= i < |Streams.Drain(buf).cmds| :: Streams.Drain(buf).cmds[i] != []
    decreases |buf|
  {
    hide ParseFrame;
    match ParseFrame(buf)
    case Parsed(argv, n) => DrainedAreNonEmpty(buf[n..]);
    case _ =>
  }

  /** One more command on the reference keyspace. */
  lemma {:induction false} StampSnoc(db: Db, cmds: seq<Argv>, argv: Argv, clock: nat -> nat, c: ScoreText)
    requires argv != [] && Runnable(Stamp(cmds, clock))
    ensures Runnable(Stamp(cmds + [argv], clock))
    ensures ExecuteAll(db, Stamp(cmds + [argv], clock), c)
         == Execute(ExecuteAll(db, Stamp(cmds, clock), c), argv, clock(|cmds|), c).0
  {
    hide Execute;
    var h := Stamp(cmds + [argv], clock);
    assert h[..|h| - 1] == Stamp(cmds, clock);
  }

  /** The store shows, from `t` on, what the reference shows after the stamped commands. */
  ghost predicate Shows(contents: Db, db: Db, cmds: seq<Argv>, clock: nat -> nat, c: ScoreText, t: nat) {
    && Runnable(Stamp(cmds, clock))
    && Live(contents, t) == Live(ExecuteAll(db, Stamp(cmds, clock), c), t)
  }

  lemma ShowsNext(before: Db, after: Db, db: Db, cmds: seq<Argv>, argv: Argv, clock: nat -> nat, c: ScoreText, t: nat)
    requires Shows(before, db, cmds, clock, c, t) && argv != [] && t <= clock(|cmds|)
    requires var now := clock(|cmds|); Live(after, now) == Live(Execute(before, argv, now, c).0, now)
    ensures Shows(after, db, cmds + [argv], clock, c, clock(|cmds|))
  {
    hide Eval, Dispatch, Live;
    var now := clock(|cmds|);
    var ref := ExecuteAll(db, Stamp(cmds, clock), c);
    LiveLater(before, t, now);
    LiveLater(ref, t, now);
    EvalSeesLive(before, ref, Dispatch(argv, now, c), now);
    StampSnoc(db, cmds, argv, clock, c);
  }

  /** The last clock reading among the first `n`. */
  function LastTime(clock: nat -> nat, n: nat): nat {
    if n == 0 then 0 else clock(n - 1)
  }

  /** A sequence of commands on a store with or without a memory limit. */
  ghost function ExecuteAllOn(ims: seq<Image>, cfg: Setup, hist: seq<Timed>, c: ScoreText): (r: seq<Image>)
    requires |ims| > 0 && Runnable(hist)
    ensures |r| == |ims|
  {
    if hist == [] then ims
    else
      var h := hist[|hist| - 1];
      FastPath.ExecuteOn(ExecuteAllOn(ims, cfg, hist[..|hist| - 1], c), cfg, h.argv, h.now, c).0
  }

  /** The store stands where the commands so far lead it, every shard and policy included. */
  ghost predicate Stands(now: seq<Image>, ims: seq<Image>, cfg: Setup, cmds: seq<Argv>, clock: nat -> nat, c: ScoreText) {
    |ims| > 0 && Runnable(Stamp(cmds, clock)) && now == ExecuteAllOn(ims, cfg, Stamp(cmds, clock), c)
  }

  lemma StandsNext(before: seq<Image>, ims: seq<Image>, cfg: Setup, cmds: seq<Argv>, argv: Argv, clock: nat -> nat, c: ScoreText)
    requires Stands(before, ims, cfg, cmds, clock, c) && argv != []
    ensures |before| > 0
    ensures Stands(FastPath.ExecuteOn(before, cfg, argv, clock(|cmds|), c).0, ims, cfg, cmds + [argv], clock, c)
  {
    hide FastPath.ExecuteOn;
    var h := Stamp(cmds + [argv], clock);
    assert h[..|h| - 1] == Stamp(cmds, clock);
  }

  lemma StandsStart(ims: seq<Image>, cfg: Setup, clock: nat -> nat, c: ScoreText)
    requires |ims| > 0
    ensures Stands(ims, ims, cfg, [], clock, c)
  {
  }

  /** One command on the store, with the reference alongside. */
  method ApplyCommand(st: Store, argv: Argv, now: nat, c: ScoreText,
                      ghost db: Db, ghost ims: seq<Image>, ghost cmds: seq<Argv>, ghost clock: nat -> nat)
    requires st.Valid() && argv != [] && now == clock(|cmds|) && LastTime(clock, |cmds|) <= now
    requires st.maxmemory == 0 ==> Shows(st.Contents(), db, cmds, clock, c, LastTime(clock, |cmds|))
    requires |st.shards| > 0 && Stands(st.Images(), ims, st.Cfg(), cmds, clock, c)
    modifies st, st.shards, set s | s in st.shards :: s.pol
    ensures st.Valid() && |st.shards| == |old(st.shards)|
    ensures st.shards == old(st.shards) || (fresh(st.shards) && forall s | s in st.shards :: fresh(s.pol))
    ensures st.maxmemory == 0 ==> Shows(st.Contents(), db, cmds + [argv], clock, c, now)
    ensures Stands(st.Images(), ims, st.Cfg(), cmds + [argv], clock, c)
  {
    hide Store.Valid, Store.Contents, Store.Images, Shard.Valid, Shows, Stands, Eval, FastPath.PlanOn, Live, Dispatch;
    ghost var before := st.Contents();
    StandsNext(st.Images(), ims, st.Cfg(), cmds, argv, clock, c);
    var _ := FastPath.RunPlan(st, Dispatch(argv, now, c), now);
    if st.maxmemory == 0 {
      ShowsNext(before, st.Contents(), db, cmds, argv, clock, c, LastTime(clock, |cmds|));
    }
  }

  /**
   * `replay_file`: parse and dispatch until the data ends, is cut or is corrupt. The store ends where
   * the parsed commands lead it; on an unbounded one everything visible is what the reference shows.
   */
  method ReplayFile(st: Store, data: Bytes, clock: nat -> nat, c: ScoreText) returns (applied: nat)
    requires st.Valid() && Monotone(clock)
    modifies st, st.shards, set s | s in st.shards :: s.pol
    ensures st.Valid() && applied == |Streams.Drain(data).cmds|
    ensures st.maxmemory == 0 ==>
              Shows(st.Contents(), old(st.Contents()), Streams.Drain(data).cmds, clock, c, LastTime(clock, applied))
    ensures |st.shards| == |old(st.shards)| > 0
    ensures Stands(st.Images(), old(st.Images()), st.Cfg(), Streams.Drain(data).cmds, clock, c)
  {
    hide Store.Valid, Store.Contents, Store.Images, Shard.Valid, Shows, Stands, Eval, Live, Dispatch, ParseFrame,
         Streams.Drain, Streams.Draining;
    st.ContentsOfImages();
    ghost var db, ims := st.Contents(), st.Images();
    StandsStart(ims, st.Cfg(), clock, c);
    ghost var cmds: seq<Argv> := [];
    applied := 0;
    var cursor: nat := 0;
    Streams.DrainStart(data);
    ShowsStart(db, clock, c);
    while cursor < |data|
      invariant cursor <= |data| && applied == |cmds| && Streams.Draining(data, cursor, cmds)
      invariant st.Valid()
      invariant st.shards == old(st.shards) || (fresh(st.shards) && forall s | s in st.shards :: fresh(s.pol))
      invariant st.maxmemory == 0 ==> Shows(st.Contents(), db, cmds, clock, c, LastTime(clock, applied))
      invariant |st.shards| == |old(st.shards)| > 0 && Stands(st.Images(), ims, st.Cfg(), cmds, clock, c)
      decreases |data| - cursor
    {
      Streams.DrainStep(data, cursor, cmds);
      var p := ParseCommand(data[cursor..]);
      match p {
        case Parsed(argv, consumed) =>
          cursor := cursor + consumed;
          if argv != [] {
            ApplyCommand(st, argv, clock(applied), c, db, ims, cmds, clock);
            applied := applied + 1;
            cmds := cmds + [argv];
          } else {
            assert cmds + Streams.Keep(argv) == cmds;
          }
        case NeedMore => return;
        case Bad(_) => return;
      }
    }
    DrainEnd(data, cmds);
  }

  lemma ShowsStart(db: Db, clock: nat -> nat, c: ScoreText)
    ensures Shows(db, db, [], clock, c, 0)
  {
  }

  lemma {:induction false} DrainEnd(data: Bytes, cmds: seq<Argv>)
    requires Streams.Draining(data, |data|, cmds)
    ensures Streams.Drain(data).cmds == cmds
  {
    assert data[|data|..] == [];
    assert cmds + [] == cmds;
  }
}
