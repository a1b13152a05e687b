/** Where range commands and inline lines leave the reference, at inputs a client can send. */
module RangeLimits {
  import opened Basics
  import opened Decimal
  import opened Resp
  import opened Values
  import opened Keyspace
  import opened Replies
  import opened Commands
  import Streams
  import ZSets

  /** `ZRANGE k 5 10` and `LRANGE k 0 9223372036854775807`. */
  function RangeCommand(name: string, k: Bytes, start: int, stop: int): Argv {
    [Ascii(name), k, DecimalOf(start), DecimalOf(stop)]
  }

  lemma RangeNames(text: string)
    requires text == "ZRANGE" || text == "LRANGE"
    ensures Upper(Ascii(text)) == Ascii(text)
    ensures var b := Ascii(text);
            && b != Ascii("PSETEX") && b != Ascii("EXPIRE") && b != Ascii("SELECT") && b != Ascii("CONFIG")
            && b != Ascii("CLIENT") && b != Ascii("DBSIZE") && b != Ascii("BGSAVE")
            && b != Ascii("INCRBY") && b != Ascii("DECRBY") && b != Ascii("INCR") && b != Ascii("DECR")
            && b != Ascii("MSET") && b != Ascii("MGET")
    ensures Ascii("ZRANGE") != Ascii("LRANGE")
  {
    var b := Ascii(text);
    assert b[..Min(|b|, NAME_MAX)] == b;
    assert forall i | 0 <= i < |text| :: 65 <= text[i] as int <= 90;
    assert UpperAll(b) == b;
    AsciiDiffer(text, "PSETEX", 0);
    AsciiDiffer(text, "EXPIRE", 0);
    AsciiDiffer(text, "SELECT", 0);
    AsciiDiffer(text, "CONFIG", 0);
    AsciiDiffer(text, "CLIENT", 0);
    AsciiDiffer(text, "DBSIZE", 0);
    AsciiDiffer(text, "BGSAVE", 0);
    AsciiDiffer(text, "INCRBY", 0);
    AsciiDiffer(text, "DECRBY", 0);
    AsciiDiffer("ZRANGE", "LRANGE", 0);
  }

  lemma NotTimed(argv: Argv, text: string, now: nat)
    requires |argv| == 4 && (text == "ZRANGE" || text == "LRANGE") && argv[0] == Ascii(text)
    ensures TimedPlan(argv, now).None?
  {
    hide Ascii, Upper, SetCommand, SetExCommand, ExpireCommand;
    RangeNames(text);
  }

  lemma NotServer(argv: Argv, text: string)
    requires |argv| == 4 && (text == "ZRANGE" || text == "LRANGE") && argv[0] == Ascii(text)
    ensures ServerPlan(argv).None?
  {
    hide Ascii, Upper, Named;
    RangeNames(text);
    NoServerName(Ascii(text), text);
  }

  lemma NoServerName(b: Bytes, text: string)
    requires (text == "ZRANGE" || text == "LRANGE") && b == Ascii(text)
    ensures !Named(b, "PING") && !Named(b, "ECHO") && !Named(b, "QUIT") && !Named(b, "SELECT") && !Named(b, "FLUSHALL")
    ensures !Named(b, "FLUSHDB") && !Named(b, "HELLO") && !Named(b, "AUTH") && !Named(b, "COMMAND") && !Named(b, "CONFIG")
    ensures !Named(b, "CLIENT") && !Named(b, "INFO") && !Named(b, "DBSIZE") && !Named(b, "SAVE") && !Named(b, "BGSAVE")
  {
    hide Ascii;
    RangeNames(text);
  }

  lemma RangesComeLater(argv: Argv, text: string, now: nat)
    requires |argv| == 4 && (text == "ZRANGE" || text == "LRANGE") && argv[0] == Ascii(text)
    ensures TimedPlan(argv, now).None? && ServerPlan(argv).None? && StringPlan(argv).None? && CounterPlan(argv).None?
  {
    hide Ascii, Upper, TimedPlan, ServerPlan, StringPlan, CounterPlan;
    NotTimed(argv, text, now);
    NotServer(argv, text);
    NotStringNorCounter(argv, text);
  }

  lemma NotStringNorCounter(argv: Argv, text: string)
    requires |argv| == 4 && (text == "ZRANGE" || text == "LRANGE") && argv[0] == Ascii(text)
    ensures StringPlan(argv).None? && CounterPlan(argv).None?
  {
    hide Ascii, Upper, CounterPlan;
    RangeNames(text);
    NotCounter(argv, text);
  }

  lemma NotCounter(argv: Argv, text: string)
    requires |argv| == 4 && (text == "ZRANGE" || text == "LRANGE") && argv[0] == Ascii(text)
    ensures CounterPlan(argv).None?
  {
    hide Ascii, Upper;
    RangeNames(text);
  }

  lemma ZrangeComesLast(argv: Argv)
    requires |argv| == 4 && argv[0] == Ascii("ZRANGE")
    ensures ListPlan(argv).None? && HashPlan(argv).None? && SetPlan(argv).None?
  {
    hide Ascii, Upper;
    RangeNames("ZRANGE");
  }

  /** `ZRANGE` makes one call and lists the members it answers. */
  lemma ZrangeReplies(db: Db, k: Bytes, start: int, stop: int, now: nat, c: ScoreText)
    requires IsI64(start) && IsI64(stop)
    ensures Execute(db, RangeCommand("ZRANGE", k, start, stop), now, c).1.reply
         == RankReply(Apply(db, Read(k, ZSlice(start, stop)), now).1, false, c)
  {
    hide Ascii, Upper, TimedPlan, ServerPlan, StringPlan, CounterPlan, ListPlan, HashPlan, SetPlan, KeyPlan, ParseI64, DecimalOf,
         Apply, RankReply;
    var argv := RangeCommand("ZRANGE", k, start, stop);
    RangeNames("ZRANGE");
    RangesComeLater(argv, "ZRANGE", now);
    ZrangeComesLast(argv);
    ParseWritten(start);
    ParseWritten(stop);
  }

  lemma LrangeReplies(db: Db, k: Bytes, start: int, stop: int, now: nat, c: ScoreText)
    requires IsI64(start) && IsI64(stop)
    ensures Execute(db, RangeCommand("LRANGE", k, start, stop), now, c).1.reply
         == ListingReply(Apply(db, Read(k, ListSlice(start, stop)), now).1)
  {
    hide Ascii, Upper, TimedPlan, ServerPlan, StringPlan, CounterPlan, HashPlan, SetPlan, ZSetPlan, KeyPlan, ParseI64, DecimalOf,
         Apply, ListingReply;
    var argv := RangeCommand("LRANGE", k, start, stop);
    RangeNames("LRANGE");
    RangesComeLater(argv, "LRANGE", now);
    ParseWritten(start);
    ParseWritten(stop);
  }

  lemma {:induction false} SortedOne(m: Bytes, x: int)
    ensures ZSets.Sorted(ZSets.Relation(map[m := x])) == [(x, m)]
  {
    hide ZSets.Sorted, ZSets.Relation, ZSets.Before;
    ZSets.InRelation(map[m := x]);
    var s, ps := [(x, m)], ZSets.Relation(map[m := x]);
    assert forall p :: p in s <==> p in ps;
    ZSets.AscendingIsSorted(s, ps);
  }

  /** On a sorted set of one member, `ZRANGE k 5 10` lists it, though no member has rank 5 to 10. */
  lemma ZrangePastTheEnd(k: Bytes, m: Bytes, x: int, now: nat, c: ScoreText)
    ensures var db := map[k := Entry(ZSet(map[m := x]), None)];
            && Execute(db, RangeCommand("ZRANGE", k, 5, 10), now, c).1.reply == Array([Bulk(Some(m))])
            && ZSets.Window([(x, m)], 5, 10) == []
  {
    hide Execute, ZSets.Sorted, ZSets.Relation, Ascii;
    var db := map[k := Entry(ZSet(map[m := x]), None)];
    assert Live(db, now) == db;
    SortedOne(m, x);
    ZrangeReplies(db, k, 5, 10, now, c);
    var ranks := [(x, m)];
    assert Apply(db, Read(k, ZSlice(5, 10)), now).1 == Scored(ranks);
    assert ranks[1..] == [];
    assert RankReplies(ranks, false, c) == [Bulk(Some(m))] + RankReplies([], false, c);
  }

  /** On a list of one item, `LRANGE k 0 9223372036854775807` lists nothing, though the item is in range. */
  lemma LrangeToTheLargest(k: Bytes, v: Bytes, now: nat, c: ScoreText)
    ensures var db := map[k := Entry(List([v]), None)];
            && Execute(db, RangeCommand("LRANGE", k, 0, I64_MAX), now, c).1.reply == Array([])
            && ZSets.Window([v], 0, I64_MAX) == [v]
  {
    hide Execute, Ascii;
    var db := map[k := Entry(List([v]), None)];
    assert Live(db, now) == db;
    LrangeReplies(db, k, 0, I64_MAX, now, c);
    assert Apply(db, Read(k, ListSlice(0, I64_MAX)), now).1 == Listing([]);
  }

  /** An inline line of 70000 letters. */
  function LongLine(): Bytes {
    seq(70000, i => 97 as Byte) + CRLF
  }

  /** Read at once it is one command; cut before its last byte, the loop rejects it. */
  lemma {:induction false} LongLineIsCut() returns (p: nat)
    ensures !Streams.LinesBounded(LongLine()) && p <= |LongLine()|
    ensures Streams.Drain(LongLine()[..p]).error == Some(TooLarge) && Streams.Drain(LongLine()).error.None?
  {
    var line := LongLine();
    var e := LineEnd(line, 0);
    assert CrlfAt(line, 70000);
    assert forall j | CrlfAt(line, j) :: j == 70000;
    assert e == Some(70000);
    assert ParseFrame(line).Parsed? && ParseFrame(line).used == 70002;
    assert line[70002..] == [];
    p := Streams.LongLineBreaks(line);
  }
}
