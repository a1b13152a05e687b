/** Byte streams cut into reads: the accumulate / parse / drain loop does not see the cuts. */
module Streams {
  import opened Basics
  import opened Decimal
  import opened Resp
  import opened Frames

  /** Commands executed, bytes consumed, and the protocol error that ended the stream, if any. */
  datatype Outcome = Outcome(cmds: seq<Argv>, used: nat, error: Option<ProtocolError>)

  /** Empty commands are skipped by every loop. */
  function Keep(argv: Argv): seq<Argv> {
    if argv == [] then [] else [argv]
  }

  function Then(a: Outcome, b: Outcome): Outcome {
    Outcome(a.cmds + b.cmds, a.used + b.used, b.error)
  }

  /** Everything that can be parsed from the front of one buffer. */
  function Drain(buf: Bytes): (r: Outcome)
    ensures r.used <= |buf|
    decreases |buf|
  {
    match ParseFrame(buf)
    case NeedMore => Outcome([], 0, None)
    case Bad(e) => Outcome([], 0, Some(e))
    case Parsed(argv, n) => Then(Outcome(Keep(argv), n, None), Drain(buf[n..]))
  }

  /** The loop over reads: what is left of one buffer is put in front of the next chunk. */
  function Feed(pending: Bytes, chunks: seq<Bytes>): Outcome
    decreases |chunks|
  {
    if chunks == [] then Outcome([], 0, None)
    else
      var d := Drain(pending + chunks[0]);
      if d.error.Some? then d
      else Then(d, Feed((pending + chunks[0])[d.used..], chunks[1..]))
  }

  function Concat(chunks: seq<Bytes>): Bytes {
    if chunks == [] then [] else chunks[0] + Concat(chunks[1..])
  }

  /** No inline line of the stream is longer than the guard allows an unterminated one to be. */
  predicate LinesBounded(stream: Bytes)
    decreases |stream|
  {
    match ParseFrame(stream)
    case Parsed(_, n) => (stream[0] != STAR ==> n <= MAX_INLINE + 1) && LinesBounded(stream[n..])
    case _ => true
  }

  // ---------- what one read can settle ----------

  lemma ThenAssoc(a: Outcome, b: Outcome, c: Outcome)
    ensures Then(Then(a, b), c) == Then(a, Then(b, c))
  {
    assert a.cmds + b.cmds + c.cmds == a.cmds + (b.cmds + c.cmds);
  }

  /** A bounded stream cannot reject early: an over-long unterminated line stays unterminated. */
  lemma {:induction false} EarlyRejectIsFinal(buf: Bytes, ext: Bytes)
    requires ParseFrame(buf).Bad? && LinesBounded(buf + ext)
    ensures ParseFrame(buf + ext) == ParseFrame(buf)
  {
    if buf[0] == STAR {
      FrameStable(buf, ext);
    } else {
      assert forall j | CrlfAt(buf + ext, j) && j + 1 < |buf| :: CrlfAt(buf, j);
    }
  }

  /** What was drained from a prefix is what the whole stream starts with. */
  ghost predicate Extends(buf: Bytes, ext: Bytes) {
    var d := Drain(buf);
    && Drain(buf + ext) == (if d.error.Some? then d else Then(d, Drain(buf[d.used..] + ext)))
    && (d.error.None? ==> LinesBounded(buf[d.used..] + ext))
  }

  lemma {:induction false} DrainFrame(buf: Bytes)
    requires ParseFrame(buf).Parsed?
    ensures var p := ParseFrame(buf); Drain(buf) == Then(Outcome(Keep(p.argv), p.used, None), Drain(buf[p.used..]))
  {
  }

  lemma ExtendsByFrame(buf: Bytes, ext: Bytes)
    requires ParseFrame(buf).Parsed? && ParseFrame(buf + ext) == ParseFrame(buf)
    requires Extends(buf[ParseFrame(buf).used..], ext)
    ensures Extends(buf, ext)
  {
    hide ParseFrame, LinesBounded, Drain;
    DrainFrame(buf);
    DrainFrame(buf + ext);
    var argv, n := ParseFrame(buf).argv, ParseFrame(buf).used;
    var d := Drain(buf[n..]);
    assert (buf + ext)[n..] == buf[n..] + ext;
    assert buf[n..][d.used..] == buf[n + d.used..];
    ThenAssoc(Outcome(Keep(argv), n, None), d, Drain(buf[n + d.used..] + ext));
  }

  lemma {:induction false} DrainExtends(buf: Bytes, ext: Bytes)
    requires LinesBounded(buf + ext)
    ensures Extends(buf, ext)
    decreases |buf|
  {
    hide ParseFrame;
    match ParseFrame(buf)
    case NeedMore =>
      assert buf[0..] == buf;
    case Bad(e) =>
      EarlyRejectIsFinal(buf, ext);
    case Parsed(argv, n) =>
      FrameStable(buf, ext);
      assert (buf + ext)[n..] == buf[n..] + ext;
      DrainExtends(buf[n..], ext);
      ExtendsByFrame(buf, ext);
  }

  lemma {:induction false} DrainedNeedsMore(buf: Bytes)
    ensures Drain(buf).error.None? ==> ParseFrame(buf[Drain(buf).used..]) == NeedMore
    decreases |buf|
  {
    hide ParseFrame;
    match ParseFrame(buf)
    case NeedMore => assert buf[0..] == buf;
    case Bad(_) =>
    case Parsed(_, n) =>
      DrainedNeedsMore(buf[n..]);
      assert buf[n..][Drain(buf[n..]).used..] == buf[n + Drain(buf[n..]).used..];
  }

  lemma {:induction false} FeedIsDrain(pending: Bytes, chunks: seq<Bytes>)
    requires ParseFrame(pending) == NeedMore && LinesBounded(pending + Concat(chunks))
    ensures Feed(pending, chunks) == Drain(pending + Concat(chunks))
    decreases |chunks|
  {
    if chunks == [] {
      assert pending + Concat(chunks) == pending;
    } else {
      var buf := pending + chunks[0];
      assert pending + Concat(chunks) == buf + Concat(chunks[1..]);
      DrainExtends(buf, Concat(chunks[1..]));
      DrainedNeedsMore(buf);
      var d := Drain(buf);
      if d.error.None? {
        FeedIsDrain(buf[d.used..], chunks[1..]);
      }
    }
  }

  // ---------- where the guarantee ends ----------

  lemma BulkLocal(buf: Bytes, pos: nat, m: nat)
    requires ParseBulk(buf, pos).Payload? && ParseBulk(buf, pos).end + 2 <= m <= |buf|
    ensures ParseBulk(buf[..m], pos) == ParseBulk(buf, pos)
  {
    hide ParseI64, LineEnd;
    LineEndLocal(buf, pos + 1, m);
    var i := LineEnd(buf, pos + 1).value;
    assert buf[..m][pos + 1..i] == buf[pos + 1..i];
    var e := ParseBulk(buf, pos).end;
    assert buf[..m][e..e + 2] == buf[e..e + 2];
  }

  lemma {:induction false} LineEndLocal(buf: Bytes, start: nat, m: nat)
    requires m <= |buf| && LineEnd(buf, start).Some? && LineEnd(buf, start).value + 2 <= m
    ensures LineEnd(buf[..m], start) == LineEnd(buf, start)
  {
    var r, s := LineEnd(buf, start), LineEnd(buf[..m], start);
    assert CrlfAt(buf[..m], r.value);
    assert s.Some? ==> CrlfAt(buf, s.value);
  }

  lemma {:induction false} ArgsLocal(buf: Bytes, pos: nat, n: nat, m: nat)
    requires pos <= |buf| && ParseArgs(buf, pos, n).Parsed? && ParseArgs(buf, pos, n).used <= m <= |buf|
    ensures ParseArgs(buf[..m], pos, n) == ParseArgs(buf, pos, n)
    decreases n
  {
    hide ParseBulk;
    if n > 0 {
      var b := ParseBulk(buf, pos);
      BulkLocal(buf, pos, m);
      ArgsLocal(buf, b.end + 2, n - 1, m);
      assert buf[..m][b.start..b.end] == buf[b.start..b.end];
    }
  }

  /** A parsed frame depends on its own bytes only. */
  lemma FrameLocal(buf: Bytes, m: nat)
    requires ParseFrame(buf).Parsed? && ParseFrame(buf).used <= m <= |buf|
    ensures ParseFrame(buf[..m]) == ParseFrame(buf)
  {
    hide ParseI64;
    if buf[0] == STAR {
      LineEndLocal(buf, 1, m);
      var i := LineEnd(buf, 1).value;
      assert buf[..m][1..i] == buf[1..i];
      var n := ParseI64(buf[1..i]);
      if n.Some? && 0 <= n.value <= MAX_ARRAY_LEN {
        ArgsLocal(buf, i + 2, n.value, m);
      }
    } else {
      LineEndLocal(buf, 0, m);
      var i := LineEnd(buf, 0).value;
      assert buf[..m][..i] == buf[..i];
    }
  }

  /** Cutting an over-long line just before its line feed makes the loop reject it. */
  lemma {:induction false} LongLineBreaks(stream: Bytes) returns (p: nat)
    requires !LinesBounded(stream)
    ensures p <= |stream| && Drain(stream[..p]).error == Some(TooLarge)
    ensures Drain(stream[..p]).used < Drain(stream).used
    decreases |stream|
  {
    var n := ParseFrame(stream).used;
    if stream[0] != STAR && n > MAX_INLINE + 1 {
      p := n - 1;
      assert forall j :: CrlfAt(stream[..p], j) ==> CrlfAt(stream, j);
      assert LineEnd(stream[..p], 0).None?;
    } else {
      var q := LongLineBreaks(stream[n..]);
      p := n + q;
      FrameLocal(stream, p);
      assert stream[..p][n..] == stream[n..][..q];
    }
  }

  /** The two pieces of a cut, and what the loop does when the first is rejected. */
  lemma {:induction false} CutInTwo(stream: Bytes, p: nat)
    requires p <= |stream| && Drain(stream[..p]).error.Some?
    ensures var chunks := [stream[..p], stream[p..]]; Concat(chunks) == stream && Feed([], chunks) == Drain(stream[..p])
  {
    hide Drain;
    var chunks := [stream[..p], stream[p..]];
    assert chunks[1..] == [stream[p..]] && chunks[1..][1..] == [];
    assert Concat(chunks[1..]) == stream[p..] + Concat([]);
    assert [] + chunks[0] == stream[..p];
  }

  lemma EmptyNeedsMore()
    ensures ParseFrame([]) == NeedMore
  {
  }

  /**
   * Chunking independence, with its exact condition: every way of cutting the stream gives the
   * commands, the consumption and the error of the uncut stream if and only if no inline line is
   * longer than the guard on unterminated ones.
   */
  lemma {:induction false} ChunkingIndependence(stream: Bytes)
    ensures LinesBounded(stream) <==>
              forall chunks | Concat(chunks) == stream :: Feed([], chunks) == Drain(stream)
  {
    hide Drain, Feed, LinesBounded, Concat, ParseFrame;
    EmptyNeedsMore();
    if LinesBounded(stream) {
      forall chunks | Concat(chunks) == stream ensures Feed([], chunks) == Drain(stream) {
        assert [] + Concat(chunks) == stream;
        FeedIsDrain([], chunks);
      }
    } else {
      var p := LongLineBreaks(stream);
      CutInTwo(stream, p);
      assert Feed([], [stream[..p], stream[p..]]) != Drain(stream);
    }
  }

  // ---------- the connection's read buffer ----------

  /** `cmds` were read before `cursor`, and draining goes on from there. */
  ghost predicate Draining(buf: Bytes, cursor: nat, cmds: seq<Argv>) {
    cursor <= |buf| && Drain(buf) == Then(Outcome(cmds, cursor, None), Drain(buf[cursor..]))
  }

  lemma {:induction false} DrainStep(buf: Bytes, cursor: nat, cmds: seq<Argv>)
    requires Draining(buf, cursor, cmds)
    ensures match ParseFrame(buf[cursor..])
            case NeedMore => Drain(buf) == Outcome(cmds, cursor, None)
            case Bad(e) => Drain(buf) == Outcome(cmds, cursor, Some(e))
            case Parsed(argv, n) => n > 0 && Draining(buf, cursor + n, cmds + Keep(argv))
  {
    hide ParseFrame;
    match ParseFrame(buf[cursor..])
    case NeedMore => assert cmds + [] == cmds;
    case Bad(e) => assert cmds + [] == cmds;
    case Parsed(argv, n) =>
      assert buf[cursor..][n..] == buf[cursor + n..];
      ThenAssoc(Outcome(cmds, cursor, None), Outcome(Keep(argv), n, None), Drain(buf[cursor + n..]));
  }

  class Inbox {
    var inbuf: Bytes

    constructor ()
      ensures inbuf == []
    {
      inbuf := [];
    }

    /** The arguments that ranges relative to `base` denote in the whole buffer. */
    method Arguments(base: nat, ranges: seq<(nat, nat)>) returns (argv: Argv)
      requires base <= |inbuf| && InBounds(inbuf[base..], ranges)
      ensures argv == Slices(inbuf[base..], ranges)
    {
      argv := [];
      for i := 0 to |ranges|
        invariant argv == Slices(inbuf[base..], ranges)[..i]
      {
        var (o, l) := ranges[i];
        assert inbuf[base..][o..o + l] == inbuf[base + o..base + o + l];
        argv := argv + [inbuf[base + o..base + o + l]];
      }
    }

    /**
     * One read: append, parse zero-copy from a moving cursor until the frame is incomplete or
     * malformed, then drop what was consumed.
     */
    method OnRead(chunk: Bytes) returns (cmds: seq<Argv>, error: Option<ProtocolError>)
      modifies this
      ensures var d := Drain(old(inbuf) + chunk);
              cmds == d.cmds && error == d.error && inbuf == (old(inbuf) + chunk)[d.used..]
    {
      hide ParseFrame, Drain, Draining, Slices, InBounds;
      inbuf := inbuf + chunk;
      cmds, error := [], None;
      var cursor: nat := 0;
      DrainStart(inbuf);
      while true
        invariant cursor <= |inbuf| && inbuf == old(inbuf) + chunk && error.None?
        invariant Draining(inbuf, cursor, cmds)
        decreases |inbuf| - cursor
      {
        DrainStep(inbuf, cursor, cmds);
        var r := ParseCommandRanges(inbuf[cursor..]);
        match r {
          case Incomplete => break;
          case Rejected(e) =>
            error := Some(e);
            break;
          case Ranges(ranges, consumed) =>
            var argv := Arguments(cursor, ranges);
            cursor := cursor + consumed;
            cmds := cmds + Keep(argv);
        }
      }
      inbuf := inbuf[cursor..];
    }
  }

  lemma DrainStart(buf: Bytes)
    ensures Draining(buf, 0, [])
  {
    assert buf[0..] == buf;
    assert [] + Drain(buf).cmds == Drain(buf).cmds;
  }
}
