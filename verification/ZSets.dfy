/** Sorted sets: a score map and an ordered index that always describe the same relation. */
module ZSets {
  import opened Basics

  type Rank = (int, Bytes)

  // ---------- the order of the index ----------

  predicate LexLess(a: Bytes, b: Bytes) {
    b != [] && (a == [] || a[0] < b[0] || (a[0] == b[0] && LexLess(a[1..], b[1..])))
  }

  /** By score, then by member, bytewise. */
  predicate Before(p: Rank, q: Rank) {
    p.0 < q.0 || (p.0 == q.0 && LexLess(p.1, q.1))
  }

  lemma {:induction false} LexTotal(a: Bytes, b: Bytes)
    ensures a == b || LexLess(a, b) || LexLess(b, a)
    ensures !(LexLess(a, b) && LexLess(b, a))
  {
    if a != [] && b != [] {
      LexTotal(a[1..], b[1..]);
      assert a == [a[0]] + a[1..] && b == [b[0]] + b[1..];
    }
  }

  lemma {:induction false} LexTransitive(a: Bytes, b: Bytes, c: Bytes)
    requires LexLess(a, b) && LexLess(b, c)
    ensures LexLess(a, c)
  {
    if a != [] && a[0] == b[0] == c[0] {
      LexTransitive(a[1..], b[1..], c[1..]);
    }
  }

  lemma BeforeTotal(p: Rank, q: Rank)
    ensures p == q || Before(p, q) || Before(q, p)
    ensures !(Before(p, q) && Before(q, p)) && !Before(p, p)
  {
    LexTotal(p.1, q.1);
    LexTotal(p.1, p.1);
  }

  lemma BeforeTransitive(p: Rank, q: Rank, r: Rank)
    requires Before(p, q) && Before(q, r)
    ensures Before(p, r)
  {
    if p.0 == q.0 == r.0 {
      LexTransitive(p.1, q.1, r.1);
    }
  }

  ghost predicate Ascending(s: seq<Rank>) {
    forall i, j | 0 <= i < j < |s| :: Before(s[i], s[j])
  }

  // ---------- the index as a function of the scores ----------

  function Relation(scores: map<Bytes, int>): set<Rank> {
    set m | m in scores :: (scores[m], m)
  }

  lemma InRelation(scores: map<Bytes, int>)
    ensures forall p :: p in Relation(scores) <==> p.1 in scores && scores[p.1] == p.0
  {
  }

  predicate IsFirst(ps: set<Rank>, p: Rank) {
    p in ps && forall q | q in ps :: q == p || Before(p, q)
  }

  lemma {:induction false} FirstExists(ps: set<Rank>) returns (p: Rank)
    requires ps != {}
    ensures IsFirst(ps, p)
  {
    var x :| x in ps;
    if ps == {x} {
      return x;
    }
    var y := FirstExists(ps - {x});
    BeforeTotal(x, y);
    p := if Before(x, y) then x else y;
    forall q | q in ps ensures q == p || Before(p, q) {
      if Before(x, y) && q != x && q != y {
        BeforeTransitive(x, y, q);
      }
    }
  }

  lemma FirstIsUnique(ps: set<Rank>)
    requires ps != {}
    ensures exists p :: IsFirst(ps, p)
    ensures forall p, q | IsFirst(ps, p) && IsFirst(ps, q) :: p == q
  {
    var w := FirstExists(ps);
    forall p, q | IsFirst(ps, p) && IsFirst(ps, q) ensures p == q {
      BeforeTotal(p, q);
    }
  }

  function First(ps: set<Rank>): (p: Rank)
    requires ps != {}
    ensures IsFirst(ps, p)
  {
    FirstIsUnique(ps);
    var p :| IsFirst(ps, p);
    p
  }

  function Sorted(ps: set<Rank>): (s: seq<Rank>)
    ensures |s| == |ps|
    decreases |ps|
  {
    if ps == {} then [] else [First(ps)] + Sorted(ps - {First(ps)})
  }

  lemma {:induction false} SortedIsAscending(ps: set<Rank>)
    ensures Ascending(Sorted(ps)) && forall p :: p in Sorted(ps) <==> p in ps
    decreases |ps|
  {
    if ps != {} {
      SortedIsAscending(ps - {First(ps)});
      var s, t := Sorted(ps), Sorted(ps - {First(ps)});
      assert forall i | 0 < i < |s| :: s[i] == t[i - 1] && s[i] in t;
      assert forall p :: p in s <==> p == First(ps) || p in t;
    }
  }

  lemma AscendingTail(s: seq<Rank>)
    requires Ascending(s) && s != []
    ensures Ascending(s[1..]) && forall q | q in s[1..] :: Before(s[0], q)
  {
    assert forall i | 0 <= i < |s[1..]| :: s[1..][i] == s[i + 1];
  }

  /** There is one ascending listing of a relation. */
  lemma {:induction false} AscendingIsSorted(s: seq<Rank>, ps: set<Rank>)
    requires Ascending(s) && forall p :: p in s <==> p in ps
    ensures s == Sorted(ps)
    decreases |s|
  {
    if s == [] {
      assert ps == {};
    } else {
      assert s[0] in ps;
      var f := First(ps);
      assert f in s;
      var i :| 0 <= i < |s| && s[i] == f;
      BeforeTotal(s[0], f);
      var t, rest := s[1..], ps - {f};
      forall p ensures p in t <==> p in rest {
        BeforeTotal(f, f);
        if p in t {
          var j :| 0 <= j < |t| && t[j] == p;
          assert s[j + 1] == p;
        }
      }
      AscendingTail(s);
      AscendingIsSorted(t, rest);
    }
  }

  // ---------- the two tree updates ----------

  function InsertRank(s: seq<Rank>, p: Rank): seq<Rank> {
    if s == [] then [p]
    else if s[0] == p then s
    else if Before(p, s[0]) then [p] + s
    else [s[0]] + InsertRank(s[1..], p)
  }

  function RemoveRank(s: seq<Rank>, p: Rank): seq<Rank> {
    if s == [] then [] else if s[0] == p then s[1..] else [s[0]] + RemoveRank(s[1..], p)
  }

  lemma AscendingCons(p: Rank, s: seq<Rank>)
    requires Ascending(s) && forall q | q in s :: Before(p, q)
    ensures Ascending([p] + s)
  {
    var t := [p] + s;
    assert forall i | 0 < i < |t| :: t[i] == s[i - 1] && t[i] in s;
  }

  lemma {:induction false} InsertRankIs(s: seq<Rank>, p: Rank)
    requires Ascending(s)
    ensures Ascending(InsertRank(s, p)) && forall q :: q in InsertRank(s, p) <==> q == p || q in s
  {
    if s != [] && s[0] != p {
      AscendingTail(s);
      BeforeTotal(s[0], p);
      assert s == [s[0]] + s[1..];
      if Before(p, s[0]) {
        forall q | q in s ensures Before(p, q) {
          if q != s[0] {
            BeforeTransitive(p, s[0], q);
          }
        }
        AscendingCons(p, s);
      } else {
        InsertRankIs(s[1..], p);
        AscendingCons(s[0], InsertRank(s[1..], p));
      }
    }
  }

  lemma {:induction false} RemoveRankIs(s: seq<Rank>, p: Rank)
    requires Ascending(s)
    ensures Ascending(RemoveRank(s, p)) && forall q :: q in RemoveRank(s, p) <==> q != p && q in s
  {
    if s != [] {
      AscendingTail(s);
      assert s == [s[0]] + s[1..];
      if s[0] == p {
        BeforeTotal(p, p);
      } else {
        RemoveRankIs(s[1..], p);
        AscendingCons(s[0], RemoveRank(s[1..], p));
      }
    }
  }

  // ---------- rank windows ----------

  /** Redis indexing: a negative index counts from the end. */
  function Resolve(i: int, n: nat): int {
    if i < 0 then n + i else i
  }

  /** The elements whose index lies between `start` and `stop`, both inclusive. */
  function Window<T>(xs: seq<T>, start: int, stop: int): seq<T> {
    var lo := Max(Resolve(start, |xs|), 0);
    var hi := Min(Resolve(stop, |xs|), |xs| - 1);
    if lo > hi then [] else xs[lo..hi + 1]
  }

  function Norm(i: int, n: nat): int {
    if i < 0 then Max(n + i, 0) else Min(i, n - 1)
  }

  /** `ZSet::range`: both ends are clamped into the sequence before they are compared. */
  function ClampedWindow<T>(xs: seq<T>, start: int, stop: int): seq<T> {
    if |xs| == 0 then []
    else
      var s, e := Norm(start, |xs|), Norm(stop, |xs|);
      if s > e then [] else xs[s..e + 1]
  }

  /** Clamping pulls a start past the end onto the last element, or a stop before the front onto the first. */
  predicate ClampShows(n: int, start: int, stop: int) {
    && n > 0
    && ((start >= n && (stop >= n - 1 || stop == -1 || n == 1))
        || (stop < -n && (start == 0 || start <= -n || (start >= n && n == 1))))
  }

  /** The clamped window is the rank window, except exactly where clamping shows. */
  lemma ClampedIsWindow<T>(xs: seq<T>, start: int, stop: int)
    ensures ClampedWindow(xs, start, stop) == Window(xs, start, stop) <==> !ClampShows(|xs|, start, stop)
  {
  }

  // ---------- the sorted set ----------

  class ZSet {
    var scores: map<Bytes, int>
    var sorted: seq<Rank>

    ghost predicate Valid()
      reads this
    {
      sorted == Sorted(Relation(scores))
    }

    constructor ()
      ensures Valid() && scores == map[]
    {
      scores := map[];
      sorted := [];
    }

    /** Adds or moves a member; true if it is new. */
    method Insert(member: Bytes, score: int) returns (added: bool)
      requires Valid()
      modifies this
      ensures Valid() && scores == old(scores)[member := score] && added == (member !in old(scores))
    {
      hide Relation, Before, Ascending;
      SortedIsAscending(Relation(scores));
      InRelation(scores);
      InRelation(scores[member := score]);
      if member in scores {
        var was := scores[member];
        scores := scores[member := score];
        RemoveRankIs(sorted, (was, member));
        sorted := RemoveRank(sorted, (was, member));
        InsertRankIs(sorted, (score, member));
        sorted := InsertRank(sorted, (score, member));
        added := false;
      } else {
        scores := scores[member := score];
        InsertRankIs(sorted, (score, member));
        sorted := InsertRank(sorted, (score, member));
        added := true;
      }
      AscendingIsSorted(sorted, Relation(scores));
    }

    method Remove(member: Bytes) returns (removed: bool)
      requires Valid()
      modifies this
      ensures Valid() && scores == old(scores) - {member} && removed == (member in old(scores))
    {
      removed := member in scores;
      hide Relation, Before, Ascending;
      if removed {
        InRelation(scores);
        InRelation(scores - {member});
        SortedIsAscending(Relation(scores));
        var was := scores[member];
        scores := scores - {member};
        RemoveRankIs(sorted, (was, member));
        sorted := RemoveRank(sorted, (was, member));
        AscendingIsSorted(sorted, Relation(scores));
      }
    }

    /** Members of a rank range, in order of score and then of name, each with its score. */
    method Range(start: int, stop: int) returns (r: seq<Rank>)
      requires Valid()
      ensures r == ClampedWindow(Sorted(Relation(scores)), start, stop)
    {
      var n := |sorted|;
      if n == 0 {
        return [];
      }
      var s, e := Norm(start, n), Norm(stop, n);
      if s > e {
        return [];
      }
      r := sorted[s..][..e - s + 1];
    }
  }
}
