/** The request side of RESP: the frame grammar, the two parsers, and the encoder they invert. */
module Resp {
  import opened Basics
  import opened Decimal

  const CR: Byte := 13
  const LF: Byte := 10
  const STAR: Byte := 42
  const DOLLAR: Byte := 36
  const CRLF: Bytes := [CR, LF]
  const MAX_BULK_LEN := 512 * 1024 * 1024
  const MAX_ARRAY_LEN := 1024 * 1024
  const MAX_INLINE := 64 * 1024

  type Argv = seq<Bytes>

  datatype Fault = InvalidInteger | ExpectedBulk | NullBulk | NoCrlf

  datatype ProtocolError = Malformed(fault: Fault) | TooLarge

  datatype Parse = NeedMore | Bad(error: ProtocolError) | Parsed(argv: Argv, used: nat)

  // ---------- lines ----------

  predicate CrlfAt(buf: Bytes, i: int) {
    0 <= i && i + 1 < |buf| && buf[i] == CR && buf[i + 1] == LF
  }

  /** Where the line that starts at `start` ends: the first CRLF at or after it. */
  function LineEnd(buf: Bytes, start: nat): (r: Option<nat>)
    ensures r.Some? ==> start <= r.value && CrlfAt(buf, r.value)
    ensures forall j | start <= j && (r.Some? ==> j < r.value) :: !CrlfAt(buf, j)
    decreases |buf| - start
  {
    if start + 1 >= |buf| then None
    else if CrlfAt(buf, start) then Some(start)
    else LineEnd(buf, start + 1)
  }

  method ReadLine(buf: Bytes, start: nat) returns (r: Option<(Bytes, nat)>)
    requires start <= |buf|
    ensures r == match LineEnd(buf, start)
                 case None => None
                 case Some(i) => Some((buf[start..i], i + 2))
  {
    var i := start;
    while i + 1 < |buf|
      invariant start <= i
      invariant LineEnd(buf, start) == LineEnd(buf, i)
    {
      if buf[i] == CR && buf[i + 1] == LF {
        return Some((buf[start..i], i + 2));
      }
      i := i + 1;
    }
    r := None;
  }

  // ---------- the grammar ----------

  /** One bulk string: its payload lies in `buf[start..end]`, the next frame begins at `end + 2`. */
  datatype BulkParse = More | Broken(error: ProtocolError) | Payload(start: nat, end: nat)

  function ParseBulk(buf: Bytes, pos: nat): (r: BulkParse)
    ensures r.Payload? ==> pos < r.start <= r.end && r.end + 2 <= |buf|
  {
    if pos >= |buf| then More
    else if buf[pos] != DOLLAR then Broken(Malformed(ExpectedBulk))
    else
      match LineEnd(buf, pos + 1)
      case None => More
      case Some(i) =>
        match ParseI64(buf[pos + 1..i])
        case None => Broken(Malformed(InvalidInteger))
        case Some(len) =>
          if len < 0 then Broken(Malformed(NullBulk))
          else if len > MAX_BULK_LEN then Broken(TooLarge)
          else if i + 2 + len + 2 > |buf| then More
          else if buf[i + 2 + len..i + 2 + len + 2] != CRLF then Broken(Malformed(NoCrlf))
          else Payload(i + 2, i + 2 + len)
  }

  /** `n` more bulk strings from `pos` on. */
  function ParseArgs(buf: Bytes, pos: nat, n: nat): (r: Parse)
    ensures r.Parsed? && pos <= |buf| ==> pos <= r.used <= |buf| && |r.argv| == n
    decreases n
  {
    if n == 0 then Parsed([], pos)
    else
      match ParseBulk(buf, pos)
      case More => NeedMore
      case Broken(e) => Bad(e)
      case Payload(a, b) =>
        match ParseArgs(buf, b + 2, n - 1)
        case NeedMore => NeedMore
        case Bad(e) => Bad(e)
        case Parsed(rest, used) => Parsed([buf[a..b]] + rest, used)
  }

  function ParseArray(buf: Bytes): (r: Parse)
    requires |buf| > 0
    ensures r.Parsed? ==> 0 < r.used <= |buf|
  {
    match LineEnd(buf, 1)
    case None => NeedMore
    case Some(i) =>
      match ParseI64(buf[1..i])
      case None => Bad(Malformed(InvalidInteger))
      case Some(n) =>
        if n < 0 then Parsed([], i + 2)
        else if n > MAX_ARRAY_LEN then Bad(TooLarge)
        else ParseArgs(buf, i + 2, n)
  }

  predicate IsSpace(b: Byte) {
    b == 32 || b == 9 || b == 10 || b == 12 || b == 13
  }

  /** Pieces between separators, empty ones included. */
  function Split(line: Bytes): (r: seq<Bytes>)
    ensures |r| > 0
  {
    if line == [] then [[]]
    else if IsSpace(line[0]) then [[]] + Split(line[1..])
    else
      var rest := Split(line[1..]);
      [[line[0]] + rest[0]] + rest[1..]
  }

  function NonEmpty(pieces: seq<Bytes>): seq<Bytes> {
    if pieces == [] then []
    else (if pieces[0] == [] then [] else [pieces[0]]) + NonEmpty(pieces[1..])
  }

  function ParseInline(buf: Bytes): (r: Parse)
    ensures r.Parsed? ==> 0 < r.used <= |buf|
  {
    match LineEnd(buf, 0)
    case None => if |buf| > MAX_INLINE then Bad(TooLarge) else NeedMore
    case Some(i) => Parsed(NonEmpty(Split(buf[..i])), i + 2)
  }

  function ParseFrame(buf: Bytes): (r: Parse)
    ensures r.Parsed? ==> 0 < r.used <= |buf|
  {
    if buf == [] then NeedMore
    else if buf[0] == STAR then ParseArray(buf)
    else ParseInline(buf)
  }

  // ---------- the owned parser ----------

  /** The body of both parsers' argument loops: one bulk string at `pos`. */
  method ReadBulk(buf: Bytes, pos: nat) returns (r: BulkParse)
    ensures r == ParseBulk(buf, pos)
  {
    if pos >= |buf| {
      return More;
    }
    if buf[pos] != DOLLAR {
      return Broken(Malformed(ExpectedBulk));
    }
    var l := ReadLine(buf, pos + 1);
    if l.None? {
      return More;
    }
    var lenLine, afterLen := l.value.0, l.value.1;
    var len := ParseI64(lenLine);
    if len.None? {
      return Broken(Malformed(InvalidInteger));
    }
    if len.value < 0 {
      return Broken(Malformed(NullBulk));
    }
    if len.value > MAX_BULK_LEN {
      return Broken(TooLarge);
    }
    var dataEnd := afterLen + len.value;
    if dataEnd + 2 > |buf| {
      return More;
    }
    if buf[dataEnd..dataEnd + 2] != CRLF {
      return Broken(Malformed(NoCrlf));
    }
    r := Payload(afterLen, dataEnd);
  }

  method ParseArrayCommand(buf: Bytes) returns (r: Parse)
    requires |buf| > 0
    ensures r == ParseArray(buf)
  {
    hide ParseBulk, ParseI64;
    var l := ReadLine(buf, 1);
    if l.None? {
      return NeedMore;
    }
    var line, pos: nat := l.value.0, l.value.1;
    var count := ParseI64(line);
    if count.None? {
      return Bad(Malformed(InvalidInteger));
    }
    var n := count.value;
    if n < 0 {
      return Parsed([], pos);
    }
    if n > MAX_ARRAY_LEN {
      return Bad(TooLarge);
    }
    var argv: Argv := [];
    for k := 0 to n
      invariant pos <= |buf|
      invariant ParseArgs(buf, l.value.1, n) == After(argv, ParseArgs(buf, pos, n - k))
    {
      var b := ReadBulk(buf, pos);
      match b {
        case More => return NeedMore;
        case Broken(e) => return Bad(e);
        case Payload(start, end) =>
          AfterStep(argv, buf[start..end], ParseArgs(buf, end + 2, n - k - 1));
          argv := argv + [buf[start..end]];
          pos := end + 2;
      }
    }
    r := Parsed(argv, pos);
  }

  /** A parse result with arguments already read put in front. */
  function After(argv: Argv, p: Parse): Parse {
    if p.Parsed? then Parsed(argv + p.argv, p.used) else p
  }

  lemma AfterStep(argv: Argv, a: Bytes, p: Parse)
    ensures After(argv, if p.Parsed? then Parsed([a] + p.argv, p.used) else p) == After(argv + [a], p)
  {
    if p.Parsed? {
      assert argv + ([a] + p.argv) == argv + [a] + p.argv;
    }
  }

  method ParseCommand(buf: Bytes) returns (r: Parse)
    ensures r == ParseFrame(buf)
  {
    if buf == [] {
      return NeedMore;
    }
    if buf[0] == STAR {
      r := ParseArrayCommand(buf);
    } else {
      var l := ReadLine(buf, 0);
      if l.None? {
        return if |buf| > MAX_INLINE then Bad(TooLarge) else NeedMore;
      }
      r := Parsed(NonEmpty(Split(l.value.0)), l.value.1);
    }
  }

  // ---------- the zero-copy parser ----------

  datatype RangeParse = Incomplete | Rejected(error: ProtocolError) | Ranges(ranges: seq<(nat, nat)>, used: nat)

  /** The arguments that `(offset, length)` ranges denote. */
  function Slices(buf: Bytes, ranges: seq<(nat, nat)>): seq<Bytes>
    requires InBounds(buf, ranges)
  {
    seq(|ranges|, i requires 0 <= i < |ranges| => buf[ranges[i].0..ranges[i].0 + ranges[i].1])
  }

  predicate InBounds(buf: Bytes, ranges: seq<(nat, nat)>) {
    forall i | 0 <= i < |ranges| :: ranges[i].0 + ranges[i].1 <= |buf|
  }

  /** Same class of outcome, same bytes consumed, and every slice equal to the owned argument. */
  predicate Agrees(buf: Bytes, z: RangeParse, p: Parse) {
    match z
    case Incomplete => p == NeedMore
    case Rejected(e) => p == Bad(e)
    case Ranges(rs, used) => InBounds(buf, rs) && p == Parsed(Slices(buf, rs), used)
  }

  lemma SlicesSnoc(buf: Bytes, ranges: seq<(nat, nat)>, r: (nat, nat))
    requires InBounds(buf, ranges) && r.0 + r.1 <= |buf|
    ensures InBounds(buf, ranges + [r])
    ensures Slices(buf, ranges + [r]) == Slices(buf, ranges) + [buf[r.0..r.0 + r.1]]
  {
  }

  lemma SlicesOfPrefix(buf: Bytes, n: nat, ranges: seq<(nat, nat)>)
    requires n <= |buf| && InBounds(buf[..n], ranges)
    ensures InBounds(buf, ranges) && Slices(buf, ranges) == Slices(buf[..n], ranges)
  {
    forall i | 0 <= i < |ranges| ensures Slices(buf, ranges)[i] == Slices(buf[..n], ranges)[i] {
      var (o, l) := ranges[i];
      assert buf[..n][o..o + l] == buf[o..o + l];
    }
  }

  method ParseArrayRanges(buf: Bytes) returns (r: RangeParse)
    requires |buf| > 0
    ensures Agrees(buf, r, ParseArray(buf))
  {
    hide ParseBulk, ParseI64;
    var l := ReadLine(buf, 1);
    if l.None? {
      return Incomplete;
    }
    var line, pos: nat := l.value.0, l.value.1;
    var count := ParseI64(line);
    if count.None? {
      return Rejected(Malformed(InvalidInteger));
    }
    var n := count.value;
    var argv: seq<(nat, nat)> := [];
    assert |Slices(buf, argv)| == 0;
    if n < 0 {
      return Ranges([], pos);
    }
    if n > MAX_ARRAY_LEN {
      return Rejected(TooLarge);
    }
    for k := 0 to n
      invariant pos <= |buf| && InBounds(buf, argv)
      invariant ParseArgs(buf, l.value.1, n) == After(Slices(buf, argv), ParseArgs(buf, pos, n - k))
    {
      var b := ReadBulk(buf, pos);
      match b {
        case More => return Incomplete;
        case Broken(e) => return Rejected(e);
        case Payload(start, end) =>
          AfterStep(Slices(buf, argv), buf[start..end], ParseArgs(buf, end + 2, n - k - 1));
          SlicesSnoc(buf, argv, (start, end - start));
          argv := argv + [(start, end - start)];
          pos := end + 2;
      }
    }
    r := Ranges(argv, pos);
  }

  /** Splitting off one separator, or one whole token, at the front of a line. */
  lemma {:induction false} SplitToken(line: Bytes, i: nat)
    requires 0 < i <= |line| && forall j | 0 <= j < i :: !IsSpace(line[j])
    requires i < |line| ==> IsSpace(line[i])
    ensures NonEmpty(Split(line)) == [line[..i]] + NonEmpty(Split(line[i..]))
  {
    SplitWord(line, i);
    if i < |line| {
      assert Split(line[i..])[0] == [];
    }
    var s, t := Split(line), Split(line[i..]);
    assert s[0] == line[..i] && s[1..] == t[1..];
  }

  lemma {:induction false} SplitWord(line: Bytes, i: nat)
    requires i <= |line| && forall j | 0 <= j < i :: !IsSpace(line[j])
    ensures Split(line) == [line[..i] + Split(line[i..])[0]] + Split(line[i..])[1..]
  {
    if i == 0 {
      assert line[0..] == line;
      assert line[..0] + Split(line)[0] == Split(line)[0];
    } else {
      SplitWord(line[1..], i - 1);
      assert line[1..][i - 1..] == line[i..];
      var t := Split(line[i..])[0];
      assert line[..i] == [line[0]] + line[1..][..i - 1];
      assert [line[0]] + (line[1..][..i - 1] + t) == line[..i] + t;
    }
  }

  lemma SkipSpace(line: Bytes, i: nat)
    requires i < |line| && IsSpace(line[i])
    ensures NonEmpty(Split(line[i..])) == NonEmpty(Split(line[i + 1..]))
  {
    assert line[i..][1..] == line[i + 1..];
    assert Split(line[i..])[1..] == Split(line[i + 1..]);
  }

  lemma TakeToken(line: Bytes, start: nat, i: nat, argv: seq<(nat, nat)>)
    requires start < i <= |line| && InBounds(line, argv)
    requires forall j | start <= j < i :: !IsSpace(line[j])
    requires i < |line| ==> IsSpace(line[i])
    ensures InBounds(line, argv + [(start, i - start)])
    ensures Slices(line, argv + [(start, i - start)]) + NonEmpty(Split(line[i..]))
            == Slices(line, argv) + NonEmpty(Split(line[start..]))
  {
    SplitToken(line[start..], i - start);
    assert line[start..][i - start..] == line[i..] && line[start..][..i - start] == line[start..i];
    SlicesSnoc(line, argv, (start, i - start));
  }

  /** Inline form: records the offsets of the white-space-delimited tokens of a line. */
  method TokenRanges(line: Bytes) returns (argv: seq<(nat, nat)>)
    ensures InBounds(line, argv) && Slices(line, argv) == NonEmpty(Split(line))
  {
    hide Split, NonEmpty, Slices, InBounds;
    argv := [];
    var i: nat := 0;
    NoTokens(line);
    while i < |line|
      invariant 0 <= i <= |line| && InBounds(line, argv)
      invariant Slices(line, argv) + NonEmpty(Split(line[i..])) == NonEmpty(Split(line))
    {
      ghost var at := i;
      while i < |line| && IsSpace(line[i])
        invariant at <= i <= |line|
        invariant NonEmpty(Split(line[at..])) == NonEmpty(Split(line[i..]))
      {
        SkipSpace(line, i);
        i := i + 1;
      }
      var start := i;
      while i < |line| && !IsSpace(line[i])
        invariant start <= i <= |line|
        invariant forall j | start <= j < i :: !IsSpace(line[j])
      {
        i := i + 1;
      }
      if i > start {
        TakeToken(line, start, i, argv);
        argv := argv + [(start, i - start)];
      }
    }
  }

  lemma NoTokens(line: Bytes)
    ensures InBounds(line, []) && Slices(line, []) == [] && NonEmpty(Split(line[|line|..])) == []
    ensures line[0..] == line
  {
  }

  /** The zero-copy parser agrees with the owned one on every buffer. */
  method ParseCommandRanges(buf: Bytes) returns (r: RangeParse)
    ensures Agrees(buf, r, ParseFrame(buf))
  {
    hide Split, NonEmpty;
    if buf == [] {
      return Incomplete;
    }
    if buf[0] == STAR {
      r := ParseArrayRanges(buf);
    } else {
      var l := ReadLine(buf, 0);
      if l.None? {
        return if |buf| > MAX_INLINE then Rejected(TooLarge) else Incomplete;
      }
      var line, used := l.value.0, l.value.1;
      var argv := TokenRanges(line);
      SlicesOfPrefix(buf, |line|, argv);
      r := Ranges(argv, used);
    }
  }
}
