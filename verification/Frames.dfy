/** The encoder, and what ties it to the parser: round trip, stability under extension, prefixes. */
module Frames {
  import opened Basics
  import opened Decimal
  import opened Resp

  // ---------- encoding ----------

  function EncodeBulk(a: Bytes): Bytes {
    [DOLLAR] + Digits(|a|) + CRLF + a + CRLF
  }

  function EncodeBulks(args: Argv): Bytes {
    if args == [] then [] else EncodeBulk(args[0]) + EncodeBulks(args[1..])
  }

  /** A command as an array of bulk strings: the one wire form of the log, the feed and the dump. */
  function Encode(argv: Argv): (r: Bytes)
    ensures |r| > 0 && r[0] == STAR
  {
    [STAR] + Digits(|argv|) + CRLF + EncodeBulks(argv)
  }

  function EncodeAll(cmds: seq<Argv>): Bytes {
    if cmds == [] then [] else Encode(cmds[0]) + EncodeAll(cmds[1..])
  }

  lemma {:induction false} EncodeBulksSnoc(args: Argv, a: Bytes)
    ensures EncodeBulks(args + [a]) == EncodeBulks(args) + EncodeBulk(a)
  {
    hide EncodeBulk;
    if args == [] {
      assert [a][1..] == [];
      assert EncodeBulks([a]) == EncodeBulk(a) + EncodeBulks([]);
    } else {
      EncodeBulksSnoc(args[1..], a);
      assert (args + [a])[1..] == args[1..] + [a];
    }
  }

  lemma {:induction false} EncodeAllAppend(xs: seq<Argv>, ys: seq<Argv>)
    ensures EncodeAll(xs + ys) == EncodeAll(xs) + EncodeAll(ys)
  {
    hide Encode;
    if xs == [] {
      assert xs + ys == ys;
    } else {
      EncodeAllAppend(xs[1..], ys);
      assert (xs + ys)[1..] == xs[1..] + ys;
    }
  }

  /** Appends one encoded command to a buffer (`encode_command`, `encode` and `write_cmd` alike). */
  method EncodeCommand(out: Bytes, argv: Argv) returns (r: Bytes)
    ensures r == out + Encode(argv)
  {
    r := out + [STAR];
    r := r + Digits(|argv|);
    r := r + CRLF;
    ghost var head := r;
    for i := 0 to |argv|
      invariant r == head + EncodeBulks(argv[..i])
    {
      EncodeBulksSnoc(argv[..i], argv[i]);
      assert argv[..i + 1] == argv[..i] + [argv[i]];
      r := r + [DOLLAR];
      r := r + Digits(|argv[i]|);
      r := r + CRLF;
      r := r + argv[i];
      r := r + CRLF;
      assert r == head + EncodeBulks(argv[..i]) + EncodeBulk(argv[i]);
    }
    assert argv[..|argv|] == argv;
  }

  // ---------- stability under extension ----------

  lemma {:induction false} LineEndStable(buf: Bytes, ext: Bytes, start: nat)
    ensures LineEnd(buf, start).Some? ==> LineEnd(buf + ext, start) == LineEnd(buf, start)
  {
    var r, s := LineEnd(buf, start), LineEnd(buf + ext, start);
    assert r.Some? ==> CrlfAt(buf + ext, r.value);
    assert r.Some? && s.Some? && s.value < r.value ==> CrlfAt(buf, s.value);
  }

  lemma BulkStable(buf: Bytes, ext: Bytes, pos: nat)
    requires ParseBulk(buf, pos) != More
    ensures ParseBulk(buf + ext, pos) == ParseBulk(buf, pos)
  {
    hide ParseI64, LineEnd;
    LineEndStable(buf, ext, pos + 1);
    if buf[pos] == DOLLAR {
      var i := LineEnd(buf, pos + 1).value;
      assert (buf + ext)[pos + 1..i] == buf[pos + 1..i];
      var len := ParseI64(buf[pos + 1..i]);
      if len.Some? && 0 <= len.value <= MAX_BULK_LEN {
        var e := i + 2 + len.value;
        assert (buf + ext)[e..e + 2] == buf[e..e + 2];
      }
    }
  }

  lemma {:induction false} ArgsStable(buf: Bytes, ext: Bytes, pos: nat, n: nat)
    requires ParseArgs(buf, pos, n) != NeedMore
    ensures ParseArgs(buf + ext, pos, n) == ParseArgs(buf, pos, n)
    decreases n
  {
    hide ParseBulk;
    if n > 0 {
      BulkStable(buf, ext, pos);
      var b := ParseBulk(buf, pos);
      if b.Payload? {
        ArgsStable(buf, ext, b.end + 2, n - 1);
        assert (buf + ext)[b.start..b.end] == buf[b.start..b.end];
      }
    }
  }

  /**
   * A verdict is final: a parsed frame stays parsed the same way whatever follows it, and so does
   * a rejected array frame. (A rejected inline line does not: see `Streams.LongLineBreaks`.)
   */
  lemma FrameStable(buf: Bytes, ext: Bytes)
    requires ParseFrame(buf).Parsed? || (ParseFrame(buf).Bad? && buf[0] == STAR)
    ensures ParseFrame(buf + ext) == ParseFrame(buf)
  {
    hide ParseI64, LineEnd, ParseArgs, Split, NonEmpty;
    if buf[0] == STAR {
      LineEndStable(buf, ext, 1);
      var i := LineEnd(buf, 1).value;
      assert (buf + ext)[1..i] == buf[1..i];
      var n := ParseI64(buf[1..i]);
      if n.Some? && 0 <= n.value <= MAX_ARRAY_LEN {
        ArgsStable(buf, ext, i + 2, n.value);
      }
    } else {
      LineEndStable(buf, ext, 0);
      assert (buf + ext)[..LineEnd(buf, 0).value] == buf[..LineEnd(buf, 0).value];
    }
  }

  // ---------- round trip ----------

  predicate Short(b: Bytes) {
    |b| <= MAX_BULK_LEN
  }

  /** What the parser accepts back: the source's two size limits. */
  predicate Fits(argv: Argv) {
    |argv| <= MAX_ARRAY_LEN && forall i | 0 <= i < |argv| :: Short(argv[i])
  }

  lemma {:induction false} ArgsFit(buf: Bytes, pos: nat, n: nat)
    requires ParseArgs(buf, pos, n).Parsed?
    ensures var argv := ParseArgs(buf, pos, n).argv;
            |argv| == n && forall i | 0 <= i < n :: Short(argv[i])
    decreases n
  {
    hide ParseI64, LineEnd;
    if n > 0 {
      ArgsFit(buf, ParseBulk(buf, pos).end + 2, n - 1);
    }
  }

  /** A command that arrived as an array can be sent on: what was parsed fits. */
  lemma ParsedFits(buf: Bytes)
    requires ParseFrame(buf).Parsed? && buf[0] == STAR
    ensures Fits(ParseFrame(buf).argv)
  {
    hide ParseI64, ParseArgs;
    var i := LineEnd(buf, 1).value;
    var n := ParseI64(buf[1..i]).value;
    if n >= 0 {
      ArgsFit(buf, i + 2, n);
    }
  }

  predicate OccursAt(buf: Bytes, pos: nat, s: Bytes) {
    pos + |s| <= |buf| && buf[pos..pos + |s|] == s
  }

  /** A length prefix is read back. */
  lemma LengthLine(buf: Bytes, pos: nat, n: nat)
    requires OccursAt(buf, pos, Digits(n) + CRLF)
    ensures LineEnd(buf, pos) == Some(pos + |Digits(n)|)
    ensures buf[pos..pos + |Digits(n)|] == Digits(n)
    ensures n <= I64_MAX ==> ParseI64(buf[pos..pos + |Digits(n)|]) == Some(n)
    ensures n > I64_MAX ==> ParseI64(buf[pos..pos + |Digits(n)|]) == None
  {
    hide ParseI64, Digits;
    var d := Digits(n);
    var line := buf[pos..pos + |d| + 2];
    assert line == d + CRLF;
    assert buf[pos..pos + |d|] == line[..|d|] == d;
    assert buf[pos + |d|] == line[|d|] && buf[pos + |d| + 1] == line[|d| + 1];
    forall j | pos <= j < pos + |d| ensures !CrlfAt(buf, j) {
      assert buf[j] == line[j - pos] == d[j - pos] && IsDigit(d[j - pos]);
    }
    assert CrlfAt(buf, pos + |d|);
    LengthText(n);
  }

  lemma {:induction false} LengthText(n: nat)
    ensures ParseI64(Digits(n)) == if n <= I64_MAX then Some(n) else None
  {
    ValueOfDigits(n);
    assert IsDigit(Digits(n)[0]);
  }

  lemma OccursSplit(buf: Bytes, pos: nat, s: Bytes, t: Bytes)
    requires OccursAt(buf, pos, s + t)
    ensures OccursAt(buf, pos, s) && OccursAt(buf, pos + |s|, t)
  {
    var u := buf[pos..pos + |s| + |t|];
    assert buf[pos..pos + |s|] == u[..|s|] == s;
    assert buf[pos + |s|..pos + |s| + |t|] == u[|s|..] == t;
  }

  /** One encoded bulk string is read back, or refused for its size. */
  lemma BulkRoundTrip(buf: Bytes, pos: nat, a: Bytes)
    requires OccursAt(buf, pos, EncodeBulk(a))
    ensures |a| <= MAX_BULK_LEN ==>
              && ParseBulk(buf, pos) == Payload(pos + |EncodeBulk(a)| - |a| - 2, pos + |EncodeBulk(a)| - 2)
              && buf[pos + |EncodeBulk(a)| - |a| - 2..pos + |EncodeBulk(a)| - 2] == a
    ensures |a| > MAX_BULK_LEN ==> ParseBulk(buf, pos).Broken?
  {
    hide Digits, ParseI64, LineEnd, OccursAt;
    var d := Digits(|a|);
    assert EncodeBulk(a) == [DOLLAR] + ((d + CRLF) + (a + CRLF));
    OccursSplit(buf, pos, [DOLLAR], (d + CRLF) + (a + CRLF));
    OccursSplit(buf, pos + 1, d + CRLF, a + CRLF);
    OccursSplit(buf, pos + 1 + |d| + 2, a, CRLF);
    LengthLine(buf, pos + 1, |a|);
    assert buf[pos] == buf[pos..pos + 1][0];
  }

  lemma {:induction false} ArgsRoundTrip(buf: Bytes, pos: nat, args: Argv)
    requires OccursAt(buf, pos, EncodeBulks(args))
    ensures (forall i | 0 <= i < |args| :: |args[i]| <= MAX_BULK_LEN) ==>
              ParseArgs(buf, pos, |args|) == Parsed(args, pos + |EncodeBulks(args)|)
    ensures (exists i | 0 <= i < |args| :: |args[i]| > MAX_BULK_LEN) ==> ParseArgs(buf, pos, |args|).Bad?
    decreases |args|
  {
    hide ParseBulk, EncodeBulk;
    if args != [] {
      OccursSplit(buf, pos, EncodeBulk(args[0]), EncodeBulks(args[1..]));
      BulkRoundTrip(buf, pos, args[0]);
      ArgsRoundTrip(buf, pos + |EncodeBulk(args[0])|, args[1..]);
      assert [args[0]] + args[1..] == args;
    }
  }

  /**
   * Round trip: whatever follows it, an encoded command parses back to itself and consumes exactly
   * its own bytes, if and only if it fits the parser's limits.
   */
  lemma FrameRoundTrip(argv: Argv, rest: Bytes)
    ensures Fits(argv) ==> ParseFrame(Encode(argv) + rest) == Parsed(argv, |Encode(argv)|)
    ensures !Fits(argv) ==> ParseFrame(Encode(argv) + rest).Bad?
  {
    hide Digits, ParseI64, LineEnd, ParseArgs, ParseInline, EncodeBulks;
    var buf := Encode(argv) + rest;
    var d := Digits(|argv|);
    assert OccursAt(buf, 1, d + CRLF + EncodeBulks(argv)) by {
      assert Encode(argv) == [STAR] + (d + CRLF + EncodeBulks(argv));
    }
    OccursSplit(buf, 1, d + CRLF, EncodeBulks(argv));
    LengthLine(buf, 1, |argv|);
    if |argv| <= MAX_ARRAY_LEN {
      ArgsRoundTrip(buf, 1 + |d| + 2, argv);
    }
  }

  /** Every strict prefix of an encoded command asks for more. */
  lemma StrictPrefixNeedsMore(argv: Argv, m: nat)
    requires Fits(argv) && m < |Encode(argv)|
    ensures ParseFrame(Encode(argv)[..m]) == NeedMore
  {
    hide Encode, ParseArray, ParseInline, Fits;
    var e := Encode(argv);
    FrameRoundTrip(argv, []);
    assert e + [] == e;
    assert e[..m] + e[m..] == e;
    if m > 0 && ParseFrame(e[..m]) != NeedMore {
      FrameStable(e[..m], e[m..]);
      assert false;
    }
  }
}
