/** Stored values of the five types, their accounted size, and the collection edits. */
module Values {
  import opened Basics
  import opened Decimal
  import opened Sums
  import ZSets

  const ENTRY_OVERHEAD := 64

  datatype Value =
    | Str(s: Bytes)
    | List(items: seq<Bytes>)
    | Hash(fields: map<Bytes, Bytes>)
    | Set(members: set<Bytes>)
    | ZSet(scores: map<Bytes, int>)

  datatype Kind = KString | KList | KHash | KSet | KZSet | KNone

  function KindOf(v: Value): Kind {
    match v
    case Str(_) => KString
    case List(_) => KList
    case Hash(_) => KHash
    case Set(_) => KSet
    case ZSet(_) => KZSet
  }

  /** A collection with nothing in it; such a key must not exist. */
  predicate IsEmpty(v: Value) {
    match v
    case Str(_) => false
    case List(l) => l == []
    case Hash(h) => h == map[]
    case Set(s) => s == {}
    case ZSet(z) => z == map[]
  }

  /** `expireAt` is an absolute time in milliseconds. */
  datatype Entry = Entry(value: Value, expireAt: Option<nat>)

  // ---------- accounting ----------

  function ItemBytes(items: seq<Bytes>): nat {
    if items == [] then 0 else ItemBytes(items[..|items| - 1]) + |items[|items| - 1]| + 16
  }

  ghost function Footprint(v: Value): nat {
    match v
    case Str(s) => |s|
    case List(l) => ItemBytes(l)
    case Hash(h) => Total(map k | k in h :: |k| + |h[k]| + 32)
    case Set(s) => Total(map m | m in s :: |m| + 16)
    case ZSet(z) => Total(map m | m in z :: |m| + 8 + 24)
  }

  function KeyOverhead(k: Bytes): nat {
    |k| + ENTRY_OVERHEAD
  }

  ghost function Cost(k: Bytes, e: Entry): nat {
    KeyOverhead(k) + Footprint(e.value)
  }

  method SumMap(m: map<Bytes, nat>) returns (n: nat)
    ensures n == Total(m)
  {
    var left := m;
    n := 0;
    while left != map[]
      invariant n + Total(left) == Total(m)
      decreases |left|
    {
      var k :| k in left;
      TotalRemove(left, k);
      assert (left - {k}).Keys == left.Keys - {k};
      n := n + left[k];
      left := left - {k};
    }
  }

  /** The size a value is charged for, added up element by element. */
  method ValueBytes(v: Value) returns (n: nat)
    ensures n == Footprint(v)
  {
    match v {
      case Str(s) => n := |s|;
      case List(l) =>
        n := 0;
        for i := 0 to |l|
          invariant n == ItemBytes(l[..i])
        {
          assert l[..i + 1][..i] == l[..i];
          n := n + |l[i]| + 16;
        }
        assert l[..|l|] == l;
      case Hash(h) => n := SumMap(map k | k in h :: |k| + |h[k]| + 32);
      case Set(s) => n := SumMap(map m | m in s :: |m| + 16);
      case ZSet(z) => n := SumMap(map m | m in z :: |m| + 8 + 24);
    }
  }

  ghost function Costs(db: map<Bytes, Entry>): map<Bytes, nat> {
    map k | k in db :: Cost(k, db[k])
  }

  ghost function TotalCost(db: map<Bytes, Entry>): nat {
    Total(Costs(db))
  }

  lemma TotalCostPut(db: map<Bytes, Entry>, k: Bytes, e: Entry)
    ensures TotalCost(db[k := e]) == TotalCost(db) - (if k in db then Cost(k, db[k]) else 0) + Cost(k, e)
  {
    TotalUpdate(Costs(db), k, Cost(k, e));
    assert Costs(db[k := e]) == Costs(db)[k := Cost(k, e)];
  }

  lemma TotalCostDrop(db: map<Bytes, Entry>, k: Bytes)
    requires k in db
    ensures TotalCost(db - {k}) == TotalCost(db) - Cost(k, db[k])
    ensures TotalCost(db) >= Cost(k, db[k])
  {
    TotalRemove(Costs(db), k);
    assert Costs(db - {k}) == Costs(db) - {k};
  }

  /** No entry is free: below the fixed overhead there is room for none. */
  lemma CostlyEntries(db: map<Bytes, Entry>)
    requires TotalCost(db) < ENTRY_OVERHEAD
    ensures db == map[]
  {
    if db != map[] {
      var k :| k in db;
      TotalCostDrop(db, k);
      assert false;
    }
  }

  // ---------- collection edits ----------

  datatype Edit =
    | Push(vals: seq<Bytes>, left: bool)
    | Pop(count: nat, left: bool)
    | HSet(pairs: seq<(Bytes, Bytes)>)
    | HDel(names: seq<Bytes>)
    | SAdd(names: seq<Bytes>)
    | SRem(names: seq<Bytes>)
    | ZAdd(scored: seq<(Bytes, int)>)
    | ZRem(names: seq<Bytes>)

  datatype EditResult = Count(n: int) | Items(xs: seq<Bytes>)

  function KindOfEdit(e: Edit): Kind {
    match e
    case Push(_, _) | Pop(_, _) => KList
    case HSet(_) | HDel(_) => KHash
    case SAdd(_) | SRem(_) => KSet
    case ZAdd(_) | ZRem(_) => KZSet
  }

  /** What the collection is before it exists. */
  function Fresh(e: Edit): (v: Value)
    ensures KindOf(v) == KindOfEdit(e) && IsEmpty(v)
  {
    match KindOfEdit(e)
    case KList => List([])
    case KHash => Hash(map[])
    case KSet => Set({})
    case _ => ZSet(map[])
  }

  function Reverse(xs: seq<Bytes>): (r: seq<Bytes>)
    ensures |r| == |xs| && forall i | 0 <= i < |xs| :: r[i] == xs[|xs| - 1 - i]
  {
    seq(|xs|, i requires 0 <= i < |xs| => xs[|xs| - 1 - i])
  }

  function Names(xs: seq<Bytes>): set<Bytes> {
    set x | x in xs
  }

  /** Later pairs win. */
  function FromPairs<X>(pairs: seq<(Bytes, X)>): map<Bytes, X> {
    if pairs == [] then map[] else FromPairs(pairs[..|pairs| - 1])[pairs[|pairs| - 1].0 := pairs[|pairs| - 1].1]
  }

  function Pushed(items: seq<Bytes>, vals: seq<Bytes>, left: bool): seq<Bytes> {
    if left then Reverse(vals) + items else items + vals
  }

  /** What remains after popping, and what was popped, in the order it came off. */
  function Popped(items: seq<Bytes>, count: nat, left: bool): (seq<Bytes>, seq<Bytes>) {
    var n := Min(count, |items|);
    var cut := |items| - n;
    if left then (items[n..], items[..n]) else (items[..cut], Reverse(items[cut..]))
  }

  function EditedList(l: seq<Bytes>, e: Edit): (seq<Bytes>, EditResult)
    requires KindOfEdit(e) == KList
  {
    match e
    case Push(vals, left) => (Pushed(l, vals, left), Count(|Pushed(l, vals, left)|))
    case Pop(count, left) => (Popped(l, count, left).0, Items(Popped(l, count, left).1))
  }

  function EditedHash(h: map<Bytes, Bytes>, e: Edit): (map<Bytes, Bytes>, EditResult)
    requires KindOfEdit(e) == KHash
  {
    match e
    case HSet(pairs) => (h + FromPairs(pairs), Count(|FromPairs(pairs).Keys - h.Keys|))
    case HDel(names) => (h - Names(names), Count(|Names(names) * h.Keys|))
  }

  function EditedSet(s: set<Bytes>, e: Edit): (set<Bytes>, EditResult)
    requires KindOfEdit(e) == KSet
  {
    match e
    case SAdd(names) => (s + Names(names), Count(|Names(names) - s|))
    case SRem(names) => (s - Names(names), Count(|Names(names) * s|))
  }

  function EditedZSet(z: map<Bytes, int>, e: Edit): (map<Bytes, int>, EditResult)
    requires KindOfEdit(e) == KZSet
  {
    match e
    case ZAdd(pairs) => (z + FromPairs(pairs), Count(|FromPairs(pairs).Keys - z.Keys|))
    case ZRem(names) => (z - Names(names), Count(|Names(names) * z.Keys|))
  }

  /** What an edit means: the collection after it, and what the caller is told. */
  function Edited(v: Value, e: Edit): (r: (Value, EditResult))
    requires KindOf(v) == KindOfEdit(e)
    ensures KindOf(r.0) == KindOf(v)
  {
    match v
    case List(l) => (List(EditedList(l, e).0), EditedList(l, e).1)
    case Hash(h) => (Hash(EditedHash(h, e).0), EditedHash(h, e).1)
    case Set(s) => (Set(EditedSet(s, e).0), EditedSet(s, e).1)
    case ZSet(z) => (ZSet(EditedZSet(z, e).0), EditedZSet(z, e).1)
  }

  method PushEach(items: seq<Bytes>, vals: seq<Bytes>, left: bool) returns (l: seq<Bytes>)
    ensures l == Pushed(items, vals, left)
  {
    l := items;
    for i := 0 to |vals|
      invariant l == Pushed(items, vals[..i], left)
    {
      if left {
        assert Reverse(vals[..i + 1]) == [vals[i]] + Reverse(vals[..i]);
        l := [vals[i]] + l;
      } else {
        l := l + [vals[i]];
      }
    }
    assert vals[..|vals|] == vals;
  }

  /** One more pop takes one more element, if there is one. */
  lemma PopNext(items: seq<Bytes>, i: nat, left: bool)
    ensures Popped(items, 0, left) == (items, [])
    ensures var (l, out) := Popped(items, i, left);
            Popped(items, i + 1, left) ==
            if l == [] then (l, out)
            else if left then (l[1..], out + [l[0]])
            else (l[..|l| - 1], out + [l[|l| - 1]])
  {
    assert items[0..] == items && items[..|items|] == items;
    var (l, out) := Popped(items, i, left);
    var (l', out') := Popped(items, i + 1, left);
    if l != [] {
      assert left ==> l' == l[1..] && out' == out + [l[0]];
      assert !left ==> l' == l[..|l| - 1] && out' == out + [l[|l| - 1]];
    }
  }

  lemma {:induction false} PopPastEnd(items: seq<Bytes>, i: nat, count: nat, left: bool)
    requires i <= count && Popped(items, i, left).0 == []
    ensures Popped(items, count, left) == Popped(items, i, left)
    decreases count - i
  {
    if i < count {
      PopNext(items, i, left);
      PopPastEnd(items, i + 1, count, left);
    }
  }

  method PopEach(items: seq<Bytes>, count: nat, left: bool) returns (l: seq<Bytes>, out: seq<Bytes>)
    ensures (l, out) == Popped(items, count, left)
  {
    hide Popped;
    l, out := items, [];
    PopNext(items, 0, left);
    for i := 0 to count
      invariant (l, out) == Popped(items, i, left)
    {
      PopNext(items, i, left);
      if l == [] {
        PopPastEnd(items, i, count, left);
        return;
      }
      if left {
        out, l := out + [l[0]], l[1..];
      } else {
        out, l := out + [l[|l| - 1]], l[..|l| - 1];
      }
    }
  }

  lemma {:induction false} FromPairsSnoc<X>(pairs: seq<(Bytes, X)>, p: (Bytes, X))
    ensures FromPairs(pairs + [p]) == FromPairs(pairs)[p.0 := p.1]
    ensures FromPairs(pairs + [p]).Keys == FromPairs(pairs).Keys + {p.0}
  {
    assert (pairs + [p])[..|pairs|] == pairs;
  }

  lemma NoPairs<X>(pairs: seq<(Bytes, X)>)
    ensures FromPairs(pairs[..0]) == map[] && FromPairs(pairs[..0]).Keys == {} && pairs[..|pairs|] == pairs
  {
  }

  /** One more pair: the merged map, and one more new name if it is one. */
  lemma {:induction false} InsertNext<X>(m: map<Bytes, X>, pairs: seq<(Bytes, X)>, i: nat)
    requires i < |pairs|
    ensures var (k, x) := pairs[i]; var part := FromPairs(pairs[..i]);
            && (m + part)[k := x] == m + FromPairs(pairs[..i + 1])
            && |FromPairs(pairs[..i + 1]).Keys - m.Keys| == |part.Keys - m.Keys| + (if k in m + part then 0 else 1)
  {
    hide FromPairs;
    var (k, x) := pairs[i];
    assert pairs[..i + 1] == pairs[..i] + [pairs[i]];
    FromPairsSnoc(pairs[..i], pairs[i]);
    OneMore(FromPairs(pairs[..i]).Keys, k, m.Keys);
    MergePut(m, FromPairs(pairs[..i]), k, x);
  }

  /** Inserts pair by pair and counts the keys that were new. */
  method InsertEach<X>(m: map<Bytes, X>, pairs: seq<(Bytes, X)>) returns (h: map<Bytes, X>, n: int)
    ensures h == m + FromPairs(pairs) && n == |FromPairs(pairs).Keys - m.Keys|
  {
    hide FromPairs;
    h, n := m, 0;
    NoPairs(pairs);
    for i := 0 to |pairs|
      invariant h == m + FromPairs(pairs[..i])
      invariant n == |FromPairs(pairs[..i]).Keys - m.Keys|
    {
      var (k, x) := pairs[i];
      InsertNext(m, pairs, i);
      if k !in h {
        n := n + 1;
      }
      h := h[k := x];
    }
  }

  lemma NamesSnoc(names: seq<Bytes>, i: nat)
    requires i < |names|
    ensures Names(names[..i + 1]) == Names(names[..i]) + {names[i]}
  {
    assert names[..i + 1] == names[..i] + [names[i]];
  }

  /** Removes key by key and counts the keys that were there. */
  method RemoveEach<X>(m: map<Bytes, X>, names: seq<Bytes>) returns (h: map<Bytes, X>, n: int)
    ensures h == m - Names(names) && n == |Names(names) * m.Keys|
  {
    hide Names;
    h, n := m, 0;
    assert Names(names[..0]) == {} by { NoNames(names); }
    for i := 0 to |names|
      invariant h == m - Names(names[..i])
      invariant n == |Names(names[..i]) * m.Keys|
    {
      var k := names[i];
      NamesSnoc(names, i);
      OneMore(Names(names[..i]), k, m.Keys);
      MinusMore(m, Names(names[..i]), k);
      if k in h {
        n := n + 1;
      }
      h := h - {k};
    }
    assert names[..|names|] == names;
  }

  lemma NoNames(names: seq<Bytes>)
    ensures Names(names[..0]) == {}
  {
  }

  method AddEach(m: set<Bytes>, names: seq<Bytes>) returns (s: set<Bytes>, n: int)
    ensures s == m + Names(names) && n == |Names(names) - m|
  {
    hide Names;
    s, n := m, 0;
    assert Names(names[..0]) == {} by { NoNames(names); }
    for i := 0 to |names|
      invariant s == m + Names(names[..i])
      invariant n == |Names(names[..i]) - m|
    {
      var x := names[i];
      NamesSnoc(names, i);
      OneMore(Names(names[..i]), x, m);
      if x !in s {
        n := n + 1;
      }
      s := s + {x};
    }
    assert names[..|names|] == names;
  }

  method DiscardEach(m: set<Bytes>, names: seq<Bytes>) returns (s: set<Bytes>, n: int)
    ensures s == m - Names(names) && n == |Names(names) * m|
  {
    hide Names;
    s, n := m, 0;
    assert Names(names[..0]) == {} by { NoNames(names); }
    for i := 0 to |names|
      invariant s == m - Names(names[..i])
      invariant n == |Names(names[..i]) * m|
    {
      var x := names[i];
      NamesSnoc(names, i);
      OneMore(Names(names[..i]), x, m);
      if x in s {
        n := n + 1;
      }
      s := s - {x};
    }
    assert names[..|names|] == names;
  }

  /** The closure bodies of the collection commands. */
  method RunEdit(v: Value, e: Edit) returns (w: Value, r: EditResult)
    requires KindOf(v) == KindOfEdit(e)
    ensures (w, r) == Edited(v, e)
  {
    match e {
      case Push(vals, left) =>
        var l := PushEach(v.items, vals, left);
        return List(l), Count(|l|);
      case Pop(count, left) =>
        var l, out := PopEach(v.items, count, left);
        return List(l), Items(out);
      case HSet(pairs) =>
        var h, n := InsertEach(v.fields, pairs);
        return Hash(h), Count(n);
      case HDel(names) =>
        var h, n := RemoveEach(v.fields, names);
        return Hash(h), Count(n);
      case SAdd(names) =>
        var s, n := AddEach(v.members, names);
        return Set(s), Count(n);
      case SRem(names) =>
        var s, n := DiscardEach(v.members, names);
        return Set(s), Count(n);
      case ZAdd(pairs) =>
        var z, n := InsertEach(v.scores, pairs);
        return ZSet(z), Count(n);
      case ZRem(names) =>
        var z, n := RemoveEach(v.scores, names);
        return ZSet(z), Count(n);
    }
  }

  // ---------- list ranges ----------

  /** A signed 64-bit sum, or an unsigned number cast to signed, in the release build. */
  function WrapI64(n: int): int {
    if n > I64_MAX then n - U64_LIMIT else n
  }

  /** `lrange`: half-open bounds, so the end is `stop + 1`. */
  function ListRange<T>(xs: seq<T>, start: int, stop: int): seq<T> {
    var n := |xs|;
    var s := if start < 0 then Max(n + start, 0) else Min(start, n);
    var e := if stop < 0 then Max(n + stop + 1, 0) else Min(WrapI64(stop + 1), n);
    if s >= e then [] else xs[s..][..e - s]
  }

  /** It is the inclusive window, except that the largest stop wraps round and shows nothing. */
  lemma ListRangeIsWindow<T>(xs: seq<T>, start: int, stop: int)
    requires IsI64(start) && IsI64(stop) && |xs| <= I64_MAX
    ensures ListRange(xs, start, stop) == ZSets.Window(xs, start, stop) <==>
            stop != I64_MAX || start >= |xs| || xs == []
  {
  }
}
