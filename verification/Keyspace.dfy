/**
 * What the store calls mean: a plain map from keys to entries, from which everything expired is
 * deleted before each call. No shards, no lazy expiry, no policy, no accounting.
 */
module Keyspace {
  import opened Basics
  import opened Decimal
  import opened Values
  import ZSets

  type Db = map<Bytes, Entry>

  predicate Expired(e: Entry, now: nat) {
    e.expireAt.Some? && e.expireAt.value <= now
  }

  /** The entries still visible at `now`. */
  function Live(db: Db, now: nat): (r: Db)
    ensures forall k :: k in r <==> k in db && !Expired(db[k], now)
    ensures forall k | k in r :: r[k] == db[k]
  {
    map k | k in db && !Expired(db[k], now) :: db[k]
  }

  /** No stored collection is empty. */
  predicate NoneEmpty(db: Db) {
    forall k | k in db :: !IsEmpty(db[k].value)
  }

  // ---------- calls and answers ----------

  datatype SetOptions = SetOptions(nx: bool, xx: bool, keepTtl: bool, expireAt: Option<nat>)

  const PLAIN := SetOptions(false, false, false, None)

  datatype Ttl = NoKey | NoExpiry | Millis(ms: nat)

  datatype StoreError = WrongType | NotInteger | Overflow

  datatype Query =
    | GetString
    | StrLen
    | Exists
    | TypeName
    | TimeToLive
    | ListLen
    | ListSlice(start: int, stop: int)
    | HashGet(field: Bytes)
    | HashLen
    | HashAll
    | SetHas(member: Bytes)
    | SetCard
    | SetAll
    | ZScore(member: Bytes)
    | ZCard
    | ZSlice(start: int, stop: int)

  datatype Op =
    | Read(key: Bytes, query: Query)
    | SetString(key: Bytes, value: Bytes, opts: SetOptions)
    | Delete(key: Bytes)
    | ExpireAt(key: Bytes, at: Option<nat>)
    | IncrBy(key: Bytes, delta: int)
    | Append(key: Bytes, suffix: Bytes)
    | Modify(key: Bytes, edit: Edit)
    | ListKeys
    | FlushAll
    | PurgeExpired

  datatype Answer =
    | Flag(b: bool)
    | Number(n: int)
    | Text(text: Option<Bytes>)
    | Listing(items: seq<Bytes>)
    | Fields(fields: map<Bytes, Bytes>)
    | Members(members: set<Bytes>)
    | Score(score: Option<int>)
    | Scored(ranks: seq<(int, Bytes)>)
    | Type(kind: Kind)
    | Life(ttl: Ttl)
    | Fail(error: StoreError)
    | Done

  predicate OneKey(op: Op) {
    !op.ListKeys? && !op.FlushAll? && !op.PurgeExpired?
  }

  // ---------- one key ----------

  /** A typed read of a value that may be absent. */
  function ReadValue(v: Option<Value>, q: Query): Answer
    requires !q.Exists? && !q.TypeName? && !q.TimeToLive?
  {
    match q
    case GetString =>
      if v.None? then Text(None) else if v.value.Str? then Text(Some(v.value.s)) else Fail(WrongType)
    case StrLen =>
      if v.None? then Number(0) else if v.value.Str? then Number(|v.value.s|) else Fail(WrongType)
    case ListLen =>
      if v.None? then Number(0) else if v.value.List? then Number(|v.value.items|) else Fail(WrongType)
    case ListSlice(a, b) =>
      if v.None? then Listing([])
      else if v.value.List? then Listing(ListRange(v.value.items, a, b)) else Fail(WrongType)
    case HashGet(f) =>
      if v.None? then Text(None)
      else if !v.value.Hash? then Fail(WrongType)
      else if f in v.value.fields then Text(Some(v.value.fields[f])) else Text(None)
    case HashLen =>
      if v.None? then Number(0) else if v.value.Hash? then Number(|v.value.fields|) else Fail(WrongType)
    case HashAll =>
      if v.None? then Fields(map[]) else if v.value.Hash? then Fields(v.value.fields) else Fail(WrongType)
    case SetHas(m) =>
      if v.None? then Flag(false) else if v.value.Set? then Flag(m in v.value.members) else Fail(WrongType)
    case SetCard =>
      if v.None? then Number(0) else if v.value.Set? then Number(|v.value.members|) else Fail(WrongType)
    case SetAll =>
      if v.None? then Members({}) else if v.value.Set? then Members(v.value.members) else Fail(WrongType)
    case ZScore(m) =>
      if v.None? then Score(None)
      else if !v.value.ZSet? then Fail(WrongType)
      else if m in v.value.scores then Score(Some(v.value.scores[m])) else Score(None)
    case ZCard =>
      if v.None? then Number(0) else if v.value.ZSet? then Number(|v.value.scores|) else Fail(WrongType)
    case ZSlice(a, b) =>
      if v.None? then Scored([])
      else if v.value.ZSet?
      then Scored(ZSets.ClampedWindow(ZSets.Sorted(ZSets.Relation(v.value.scores)), a, b)) else Fail(WrongType)
  }

  function ReadCell(cell: Option<Entry>, q: Query, now: nat): Answer
  {
    match q
    case Exists => Flag(cell.Some?)
    case TypeName => Type(if cell.None? then KNone else KindOf(cell.value.value))
    case TimeToLive =>
      if cell.None? then Life(NoKey)
      else if cell.value.expireAt.None? then Life(NoExpiry)
      else Life(Millis(Max(cell.value.expireAt.value - now, 0)))
    case _ => ReadValue(if cell.None? then None else Some(cell.value.value), q)
  }

  function SetCell(cell: Option<Entry>, value: Bytes, o: SetOptions): (Option<Entry>, Answer) {
    if (o.nx && cell.Some?) || (o.xx && cell.None?) then (cell, Flag(false))
    else
      var expiry := if o.keepTtl && cell.Some? then cell.value.expireAt else o.expireAt;
      (Some(Entry(Str(value), expiry)), Flag(true))
  }

  function IncrCell(cell: Option<Entry>, delta: int): (Option<Entry>, Answer) {
    if cell.Some? && !cell.value.value.Str? then (cell, Fail(WrongType))
    else
      var cur := if cell.None? then Some(0) else ParseCounter(cell.value.value.s);
      if cur.None? then (cell, Fail(NotInteger))
      else if !IsI64(cur.value + delta) then (cell, Fail(Overflow))
      else
        var next := cur.value + delta;
        (Some(Entry(Str(DecimalOf(next)), if cell.None? then None else cell.value.expireAt)), Number(next))
  }

  function AppendCell(cell: Option<Entry>, suffix: Bytes): (Option<Entry>, Answer) {
    if cell.Some? && !cell.value.value.Str? then (cell, Fail(WrongType))
    else
      var text := (if cell.None? then [] else cell.value.value.s) + suffix;
      (Some(Entry(Str(text), if cell.None? then None else cell.value.expireAt)), Number(|text|))
  }

  function EditAnswer(r: EditResult): Answer {
    match r
    case Count(n) => Number(n)
    case Items(xs) => Listing(xs)
  }

  /** A collection appears with its first element and disappears with its last. */
  function EditCell(cell: Option<Entry>, e: Edit): (Option<Entry>, Answer) {
    if cell.Some? && KindOf(cell.value.value) != KindOfEdit(e) then (cell, Fail(WrongType))
    else
      var (v, r) := Edited(if cell.None? then Fresh(e) else cell.value.value, e);
      (if IsEmpty(v) then None else Some(Entry(v, if cell.None? then None else cell.value.expireAt)), EditAnswer(r))
  }

  /** One call on the entry of its key: the entry after it, and the answer. */
  function StepCell(cell: Option<Entry>, op: Op, now: nat): (Option<Entry>, Answer)
    requires OneKey(op)
  {
    match op
    case Read(_, q) => (cell, ReadCell(cell, q, now))
    case SetString(_, v, o) => SetCell(cell, v, o)
    case Delete(_) => (None, Flag(cell.Some?))
    case ExpireAt(_, at) => (if cell.None? then None else Some(cell.value.(expireAt := at)), Flag(cell.Some?))
    case IncrBy(_, d) => IncrCell(cell, d)
    case Append(_, s) => AppendCell(cell, s)
    case Modify(_, e) => EditCell(cell, e)
  }

  // ---------- the whole keyspace ----------

  function Cell(db: Db, k: Bytes): Option<Entry> {
    if k in db then Some(db[k]) else None
  }

  function Put(db: Db, k: Bytes, cell: Option<Entry>): Db {
    match cell
    case None => db - {k}
    case Some(e) => db[k := e]
  }

  /** The reference: delete what has expired, then do the call on the map. */
  function Apply(db: Db, op: Op, now: nat): (Db, Answer)
  {
    var live := Live(db, now);
    match op
    case ListKeys => (live, Members(live.Keys))
    case FlushAll => (map[], Done)
    case PurgeExpired => (live, Done)
    case _ =>
      var (cell, a) := StepCell(Cell(live, op.key), op, now);
      (Put(live, op.key, cell), a)
  }

  datatype TimedOp = TimedOp(op: Op, now: nat)

  /** A run of calls whose clock never goes back. */
  predicate ClockOk(run: seq<TimedOp>, from: nat) {
    && (forall i | 0 <= i < |run| :: from <= run[i].now)
    && (forall i, j | 0 <= i < j < |run| :: run[i].now <= run[j].now)
  }

  /** The state after a run. */
  function State(db: Db, run: seq<TimedOp>): Db
  {
    if run == [] then db else Apply(State(db, run[..|run| - 1]), run[|run| - 1].op, run[|run| - 1].now).0
  }

  /** The answers of a run. */
  function Answers(db: Db, run: seq<TimedOp>): (r: seq<Answer>)
    ensures |r| == |run|
  {
    if run == [] then []
    else Answers(db, run[..|run| - 1]) + [Apply(State(db, run[..|run| - 1]), run[|run| - 1].op, run[|run| - 1].now).1]
  }

  // ---------- facts about expiry ----------

  /** Looking again later sees what a first look kept. */
  lemma LiveLater(db: Db, t: nat, now: nat)
    requires t <= now
    ensures Live(Live(db, t), now) == Live(db, now)
  {
    assert Live(Live(db, t), now).Keys == Live(db, now).Keys;
  }

  /** No call leaves an empty collection behind. */
  lemma ApplyKeepsNoneEmpty(db: Db, op: Op, now: nat)
    requires NoneEmpty(db)
    ensures NoneEmpty(Apply(db, op, now).0)
  {
    assert NoneEmpty(Live(db, now));
  }

  /** A failed call changes nothing visible. */
  lemma FailedCallChangesNothing(db: Db, op: Op, now: nat)
    requires Apply(db, op, now).1.Fail?
    ensures Apply(db, op, now).0 == Live(db, now)
  {
    assert OneKey(op);
    var live := Live(db, now);
    var k := op.key;
    assert Put(live, k, Cell(live, k)) == live;
  }
}
