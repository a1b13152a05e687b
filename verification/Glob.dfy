/** The KEYS pattern matcher: one remembered star against the declarative meaning of a pattern. */
module Glob {
  import opened Basics

  const ANY: Byte := 42
  const ONE: Byte := 63
  const OPEN: Byte := 91
  const CLOSE: Byte := 93
  const NOT: Byte := 94
  const DASH: Byte := 45

  // ---------- character classes ----------

  /** `p[i..i + 3]` is a range `lo-hi`. */
  predicate RangeAt(p: Bytes, i: nat) {
    i + 2 < |p| && p[i + 1] == DASH && p[i + 2] != CLOSE
  }

  /** Where the items that start at `i` end: at the closing bracket, or at the end of the pattern. */
  function ItemsEnd(p: Bytes, i: nat): (e: nat)
    requires i <= |p|
    ensures i <= e <= |p|
    decreases |p| - i
  {
    if i == |p| || p[i] == CLOSE then i
    else if RangeAt(p, i) then ItemsEnd(p, i + 3)
    else ItemsEnd(p, i + 1)
  }

  /** Some item from `i` on covers the character. */
  predicate Covers(p: Bytes, i: nat, c: Byte)
    requires i <= |p|
    decreases |p| - i
  {
    if i == |p| || p[i] == CLOSE then false
    else if RangeAt(p, i) then p[i] <= c <= p[i + 2] || Covers(p, i + 3, c)
    else p[i] == c || Covers(p, i + 1, c)
  }

  function ItemsStart(p: Bytes): (i: nat)
    requires p != []
    ensures 1 <= i <= |p|
  {
    if |p| > 1 && p[1] == NOT then 2 else 1
  }

  /** Bytes of the class at the front of `p`, brackets included. */
  function ClassLen(p: Bytes): (n: nat)
    requires p != []
    ensures 1 <= n <= |p|
  {
    Min(ItemsEnd(p, ItemsStart(p)) + 1, |p|)
  }

  predicate ClassHas(p: Bytes, c: Byte)
    requires p != []
  {
    Covers(p, ItemsStart(p), c) != (ItemsStart(p) == 2)
  }

  /** Rounds of the loop over the items from position `i` on. */
  function Rounds(p: Bytes, i: nat): (n: nat)
    requires i <= |p|
    ensures i + n <= ItemsEnd(p, i)
    decreases |p| - i
  {
    if i >= |p| || p[i] == CLOSE then 0 else 1 + Rounds(p, i + (if RangeAt(p, i) then 3 else 1))
  }

  /** One round of the class loop. */
  lemma {:induction false} ItemStep(p: Bytes, i: nat, c: Byte)
    requires i < |p| && p[i] != CLOSE
    ensures var j := i + (if RangeAt(p, i) then 3 else 1);
            && j <= |p| && ItemsEnd(p, i) == ItemsEnd(p, j) && Rounds(p, i) == 1 + Rounds(p, j)
            && (Covers(p, i, c) <==> (if RangeAt(p, i) then p[i] <= c <= p[i + 2] else p[i] == c) || Covers(p, j, c))
  {
  }

  lemma {:induction false} ItemsDone(p: Bytes, i: nat, c: Byte)
    requires i <= |p| && (i < |p| ==> p[i] == CLOSE)
    ensures ItemsEnd(p, i) == i && !Covers(p, i, c) && Rounds(p, i) == 0
  {
  }

  method MatchClass(p: Bytes, c: Byte) returns (n: nat, has: bool, ghost rounds: nat)
    requires p != []
    ensures n == ClassLen(p) && has == ClassHas(p, c) && rounds == Rounds(p, ItemsStart(p))
  {
    hide ItemsEnd, Covers, Rounds;
    rounds := 0;
    var i := 1;
    var negate := |p| > 1 && p[1] == NOT;
    if negate {
      i := i + 1;
    }
    var matched := false;
    while i < |p| && p[i] != CLOSE
      invariant ItemsStart(p) <= i <= |p|
      invariant ItemsEnd(p, i) == ItemsEnd(p, ItemsStart(p))
      invariant (matched || Covers(p, i, c)) == Covers(p, ItemsStart(p), c)
      invariant rounds + Rounds(p, i) == Rounds(p, ItemsStart(p))
    {
      ItemStep(p, i, c);
      rounds := rounds + 1;
      if i + 2 < |p| && p[i + 1] == DASH && p[i + 2] != CLOSE {
        if p[i] <= c && c <= p[i + 2] {
          matched := true;
        }
        i := i + 3;
      } else {
        if p[i] == c {
          matched := true;
        }
        i := i + 1;
      }
    }
    ItemsDone(p, i, c);
    if i < |p| {
      i := i + 1;
    }
    return i, matched != negate, rounds;
  }

  // ---------- what a pattern means ----------

  /** Bytes of the single-character token at the front of a pattern. */
  function TokenLen(p: Bytes): (n: nat)
    requires p != []
    ensures 1 <= n <= |p|
  {
    if p[0] == OPEN then ClassLen(p) else 1
  }

  predicate TokenTakes(p: Bytes, c: Byte)
    requires p != []
  {
    p[0] == ONE || (p[0] == OPEN && ClassHas(p, c)) || (p[0] != OPEN && p[0] == c)
  }

  /** The whole of `s` is described by the whole of `p`. */
  predicate Matches(p: Bytes, s: Bytes)
    decreases |p| + |s|
  {
    if p == [] then s == []
    else if p[0] == ANY then Matches(p[1..], s) || (s != [] && Matches(p, s[1..]))
    else s != [] && TokenTakes(p, s[0]) && Matches(p[TokenLen(p)..], s[1..])
  }

  // ---------- why one remembered star is enough ----------

  /** From `a`, `m` single-character tokens and no star lead to `b`. */
  ghost predicate Tokens(pat: Bytes, a: nat, b: nat, m: nat)
    decreases m
  {
    if m == 0 then a == b <= |pat|
    else a < |pat| && pat[a] != ANY && Tokens(pat, a + TokenLen(pat[a..]), b, m - 1)
  }

  lemma {:induction false} TokensSnoc(pat: Bytes, a: nat, b: nat, m: nat)
    requires Tokens(pat, a, b, m) && b < |pat| && pat[b] != ANY
    ensures Tokens(pat, a, b + TokenLen(pat[b..]), m + 1)
    decreases m
  {
    if m > 0 {
      TokensSnoc(pat, a + TokenLen(pat[a..]), b, m - 1);
    }
  }

  /** A match of the tokens takes exactly one character each. */
  lemma {:induction false} PeelTokens(pat: Bytes, a: nat, b: nat, m: nat, s: Bytes)
    requires Tokens(pat, a, b, m) && a <= |pat| && Matches(pat[a..], s)
    ensures b <= |pat| && m <= |s| && Matches(pat[b..], s[m..])
    decreases m
  {
    if m == 0 {
      assert s[0..] == s;
    } else {
      var n := TokenLen(pat[a..]);
      assert pat[a..][n..] == pat[a + n..];
      PeelTokens(pat, a + n, b, m - 1, s[1..]);
      assert s[1..][m - 1..] == s[m..];
    }
  }

  /** A star may take any number of characters first. */
  lemma {:induction false} StarTakes(p: Bytes, s: Bytes, k: nat)
    requires p != [] && p[0] == ANY && k <= |s| && Matches(p, s[k..])
    ensures Matches(p, s)
    decreases k
  {
    if k == 0 {
      assert s[0..] == s;
    } else {
      assert s[1..][k - 1..] == s[k..];
      StarTakes(p, s[1..], k - 1);
    }
  }

  /** A match that starts with a star: the star takes some characters, the rest matches the rest. */
  lemma {:induction false} StarSplit(p: Bytes, s: Bytes) returns (k: nat)
    requires p != [] && p[0] == ANY && Matches(p, s)
    ensures k <= |s| && Matches(p[1..], s[k..])
    decreases |s|
  {
    if Matches(p[1..], s) {
      k := 0;
      assert s[0..] == s;
    } else {
      k := StarSplit(p, s[1..]);
      assert s[1..][k..] == s[k + 1..];
      k := k + 1;
    }
  }

  /** Whatever an earlier star could still do from further on, a later star can do from here. */
  lemma LaterStarSubsumes(pat: Bytes, s: Bytes, sp: nat, ss: nat, pi: nat, si: nat)
    requires sp < pi < |pat| && pat[sp] == ANY && pat[pi] == ANY
    requires ss <= si <= |s| && Tokens(pat, sp + 1, pi, si - ss)
    requires ss < |s| && Matches(pat[sp..], s[ss + 1..])
    ensures Matches(pat[pi..], s[si..])
  {
    var rest := s[ss + 1..];
    var k := StarSplit(pat[sp..], rest);
    assert pat[sp..][1..] == pat[sp + 1..];
    PeelTokens(pat, sp + 1, pi, si - ss, rest[k..]);
    assert rest[k..][si - ss..] == s[si..][k + 1..];
    StarTakes(pat[pi..], s[si..], k + 1);
  }

  /** Once the string is used up, moving the star further leaves too few characters. */
  lemma NoRoomLeft(pat: Bytes, s: Bytes, sp: nat, ss: nat, pi: nat)
    requires sp < pi <= |pat| && pat[sp] == ANY && ss < |s| && Tokens(pat, sp + 1, pi, |s| - ss)
    ensures !Matches(pat[sp..], s[ss + 1..])
  {
    if Matches(pat[sp..], s[ss + 1..]) {
      var rest := s[ss + 1..];
      var k := StarSplit(pat[sp..], rest);
      assert pat[sp..][1..] == pat[sp + 1..];
      PeelTokens(pat, sp + 1, pi, |s| - ss, rest[k..]);
      assert false;
    }
  }

  predicate AllStars(p: Bytes) {
    forall i | 0 <= i < |p| :: p[i] == ANY
  }

  lemma {:induction false} MatchesNothing(p: Bytes)
    ensures Matches(p, []) <==> AllStars(p)
    decreases |p|
  {
    if p != [] && p[0] == ANY {
      MatchesNothing(p[1..]);
      assert p == [p[0]] + p[1..];
    }
  }

  // ---------- the matcher ----------

  /** What is known inside the loop: the answer is decided here, or by moving the last star on. */
  ghost predicate Deciding(pat: Bytes, s: Bytes, pi: nat, si: nat, star: Option<(nat, nat)>) {
    && pi <= |pat| && si <= |s|
    && (star.None? ==> (Matches(pat, s) <==> Matches(pat[pi..], s[si..])))
    && (star.Some? ==>
          var (sp, ss) := star.value;
          && sp < pi && pat[sp] == ANY && ss <= si && Tokens(pat, sp + 1, pi, si - ss)
          && (Matches(pat, s) <==>
                Matches(pat[pi..], s[si..]) || (ss < |s| && Matches(pat[sp..], s[ss + 1..]))))
  }

  lemma MeetStar(pat: Bytes, s: Bytes, pi: nat, si: nat, star: Option<(nat, nat)>)
    requires Deciding(pat, s, pi, si, star) && pi < |pat| && si < |s| && pat[pi] == ANY
    ensures Deciding(pat, s, pi + 1, si, Some((pi, si)))
  {
    assert pat[pi..][1..] == pat[pi + 1..] && s[si..][1..] == s[si + 1..];
    if star.Some? {
      var (sp, ss) := star.value;
      if Matches(pat[sp..], s[ss + 1..]) {
        LaterStarSubsumes(pat, s, sp, ss, pi, si);
      }
    }
  }

  lemma TakeToken(pat: Bytes, s: Bytes, pi: nat, si: nat, star: Option<(nat, nat)>)
    requires Deciding(pat, s, pi, si, star) && pi < |pat| && si < |s|
    requires pat[pi] != ANY && TokenTakes(pat[pi..], s[si])
    ensures Deciding(pat, s, pi + TokenLen(pat[pi..]), si + 1, star)
  {
    var n := TokenLen(pat[pi..]);
    assert pat[pi..][n..] == pat[pi + n..] && s[si..][1..] == s[si + 1..];
    if star.Some? {
      TokensSnoc(pat, star.value.0 + 1, pi, si - star.value.1);
    }
  }

  lemma {:induction false} MoveStar(pat: Bytes, s: Bytes, pi: nat, si: nat, star: Option<(nat, nat)>)
    requires Deciding(pat, s, pi, si, star) && si < |s|
    requires pi < |pat| ==> pat[pi] != ANY && !TokenTakes(pat[pi..], s[si])
    ensures star.None? ==> !Matches(pat, s)
    ensures star.Some? ==>
              Deciding(pat, s, star.value.0 + 1, star.value.1 + 1, Some((star.value.0, star.value.1 + 1)))
  {
    assert !Matches(pat[pi..], s[si..]);
    if star.Some? {
      var (sp, ss) := star.value;
      assert pat[sp..][1..] == pat[sp + 1..];
      assert ss + 1 < |s| ==> s[ss + 1..][1..] == s[ss + 2..];
    }
  }

  // ---------- the matcher as a machine ----------

  /** Where the two loops stand, or what they decided. */
  datatype Config = At(pi: nat, si: nat, star: Option<(nat, nat)>) | Decided(answer: bool)

  /** One round of the main loop, or of the loop over trailing stars. */
  function Step(pat: Bytes, s: Bytes, k: Config): Config {
    match k
    case Decided(_) => k
    case At(pi, si, star) =>
      if pi < |pat| && pat[pi] == ANY then At(pi + 1, si, if si < |s| then Some((pi, si)) else star)
      else if si >= |s| then Decided(pi == |pat|)
      else if pi < |pat| && TokenTakes(pat[pi..], s[si]) then At(pi + TokenLen(pat[pi..]), si + 1, star)
      else if star.Some? then At(star.value.0 + 1, star.value.1 + 1, Some((star.value.0, star.value.1 + 1)))
      else Decided(false)
  }

  /** Its cost: one, and one more for each round of the class loop inside it. */
  function Cost(pat: Bytes, s: Bytes, k: Config): nat {
    if k.Decided? then 0
    else if k.si < |s| && k.pi < |pat| && pat[k.pi] == OPEN then 1 + Rounds(pat[k.pi..], ItemsStart(pat[k.pi..]))
    else 1
  }

  function After(pat: Bytes, s: Bytes, n: nat): Config {
    if n == 0 then At(0, 0, None) else Step(pat, s, After(pat, s, n - 1))
  }

  /** The cost of the first `n` rounds. */
  function Work(pat: Bytes, s: Bytes, n: nat): nat {
    if n == 0 then 0 else Work(pat, s, n - 1) + Cost(pat, s, After(pat, s, n - 1))
  }

  /** A round that takes a token costs no more than the pattern it passes; a failed one, no more than is left. */
  lemma CostIsPaid(pat: Bytes, s: Bytes, k: Config)
    requires k.At? && k.pi <= |pat|
    ensures Cost(pat, s, k) <= |pat| - k.pi + 1
    ensures k.pi < |pat| && pat[k.pi] != ANY && k.si < |s| ==> Cost(pat, s, k) <= TokenLen(pat[k.pi..])
    ensures k.pi < |pat| && pat[k.pi] == ANY ==> Cost(pat, s, k) == 1
  {
  }

  /** `n` rounds led here, and the star anchor's moves and the pattern passed since paid for them. */
  ghost predicate Paid(pat: Bytes, s: Bytes, n: nat, moves: nat, pi: nat, si: nat, star: Option<(nat, nat)>) {
    && pi <= |pat| && After(pat, s, n) == At(pi, si, star)
    && n <= Work(pat, s, n) <= moves * (|pat| + 1) + pi
  }

  lemma {:induction false} PayStar(pat: Bytes, s: Bytes, n: nat, moves: nat, pi: nat, si: nat, star: Option<(nat, nat)>)
    requires Paid(pat, s, n, moves, pi, si, star) && pi < |pat| && pat[pi] == ANY
    ensures Paid(pat, s, n + 1, moves, pi + 1, si, if si < |s| then Some((pi, si)) else star)
  {
    hide Cost;
    CostIsPaid(pat, s, At(pi, si, star));
  }

  lemma {:induction false} PayToken(pat: Bytes, s: Bytes, n: nat, moves: nat, pi: nat, si: nat, star: Option<(nat, nat)>)
    requires Paid(pat, s, n, moves, pi, si, star) && pi < |pat| && si < |s|
    requires pat[pi] != ANY && TokenTakes(pat[pi..], s[si])
    ensures Paid(pat, s, n + 1, moves, pi + TokenLen(pat[pi..]), si + 1, star)
  {
    hide Cost, TokenTakes, TokenLen;
    CostIsPaid(pat, s, At(pi, si, star));
    SomeCost(pat, s, At(pi, si, star));
  }

  lemma {:induction false} PayMove(pat: Bytes, s: Bytes, n: nat, moves: nat, pi: nat, si: nat, star: Option<(nat, nat)>)
    requires Paid(pat, s, n, moves, pi, si, star) && si < |s|
    requires pi < |pat| ==> pat[pi] != ANY && !TokenTakes(pat[pi..], s[si])
    requires star.Some? ==> star.value.0 < |pat|
    ensures star.Some? ==>
              Paid(pat, s, n + 1, moves + 1, star.value.0 + 1, star.value.1 + 1, Some((star.value.0, star.value.1 + 1)))
    ensures star.None? ==>
              After(pat, s, n + 1) == Decided(false) && n + 1 <= Work(pat, s, n + 1) <= (moves + 1) * (|pat| + 1)
  {
    hide Cost, TokenTakes, TokenLen;
    CostIsPaid(pat, s, At(pi, si, star));
    SomeCost(pat, s, At(pi, si, star));
    StepsLeft(moves, 0, |pat|);
  }

  lemma {:induction false} PayEnd(pat: Bytes, s: Bytes, n: nat, moves: nat, pi: nat, si: nat, star: Option<(nat, nat)>)
    requires Paid(pat, s, n, moves, pi, si, star) && si >= |s| && (pi < |pat| ==> pat[pi] != ANY)
    ensures After(pat, s, n + 1) == Decided(pi == |pat|)
    ensures n + 1 <= Work(pat, s, n + 1) <= moves * (|pat| + 1) + |pat| + 1
  {
    hide Cost;
    SomeCost(pat, s, At(pi, si, star));
  }

  /**
   * The iterative matcher decides the declarative meaning. `n` is the number of rounds of its loops;
   * their work, class loops included, is linear in the pattern for each position of the text.
   */
  method GlobMatch(pat: Bytes, s: Bytes) returns (r: bool, ghost n: nat)
    ensures r == Matches(pat, s)
    ensures After(pat, s, n) == Decided(r) && n <= Work(pat, s, n) <= |s| * (|pat| + 1) + |pat| + 1
  {
    hide Matches, Tokens, TokenTakes, TokenLen, Deciding, Paid, After, Work;
    var pi: nat, si: nat := 0, 0;
    var star: Option<(nat, nat)> := None;
    n := 0;
    ghost var moves: nat := 0;
    Start(pat, s);
    while si < |s|
      invariant Deciding(pat, s, pi, si, star) && pi <= |pat| && si <= |s|
      invariant star.Some? ==> star.value.0 < |pat| && moves <= star.value.1 <= si
      invariant star.None? ==> moves == 0
      invariant Paid(pat, s, n, moves, pi, si, star) && n <= moves * (|pat| + 1) + pi
      decreases |s| * (|pat| + 1) + |pat| - n
    {
      StepsLeft(moves, |s|, |pat|);
      var moved := false;
      if pi < |pat| {
        if pat[pi] == ANY {
          MeetStar(pat, s, pi, si, star);
          PayStar(pat, s, n, moves, pi, si, star);
          star := Some((pi, si));
          pi := pi + 1;
          moved := true;
        } else {
          var m, takes := Token(pat[pi..], s[si]);
          if takes {
            TakeToken(pat, s, pi, si, star);
            PayToken(pat, s, n, moves, pi, si, star);
            pi := pi + m;
            si := si + 1;
            moved := true;
          }
        }
      }
      if !moved {
        MoveStar(pat, s, pi, si, star);
        PayMove(pat, s, n, moves, pi, si, star);
        match star {
          case Some((sp, ss)) =>
            pi := sp + 1;
            si := ss + 1;
            star := Some((sp, ss + 1));
            moves := moves + 1;
          case None =>
            return false, n + 1;
        }
      }
      n := n + 1;
    }
    StepsLeft(moves, |s|, |pat|);
    Finish(pat, s, pi, star);
    while pi < |pat| && pat[pi] == ANY
      invariant pi <= |pat|
      invariant AllStars(pat[pi..]) <==> Matches(pat, s)
      invariant Paid(pat, s, n, moves, pi, si, star)
    {
      assert pat[pi..] == [pat[pi]] + pat[pi + 1..];
      PayStar(pat, s, n, moves, pi, si, star);
      n := n + 1;
      pi := pi + 1;
    }
    assert pi < |pat| ==> pat[pi..][0] == pat[pi];
    PayEnd(pat, s, n, moves, pi, si, star);
    n := n + 1;
    r := pi == |pat|;
  }

  lemma SomeCost(pat: Bytes, s: Bytes, k: Config)
    requires k.At?
    ensures Cost(pat, s, k) >= 1
    ensures k.si >= |s| ==> Cost(pat, s, k) == 1
  {
  }

  method Token(p: Bytes, c: Byte) returns (n: nat, takes: bool)
    requires p != [] && p[0] != ANY
    ensures n == TokenLen(p) && takes == TokenTakes(p, c)
  {
    if p[0] == ONE {
      return 1, true;
    } else if p[0] == OPEN {
      ghost var rounds;
      n, takes, rounds := MatchClass(p, c);
    } else {
      return 1, p[0] == c;
    }
  }

  lemma Start(pat: Bytes, s: Bytes)
    ensures Deciding(pat, s, 0, 0, None) && Paid(pat, s, 0, 0, 0, 0, None)
  {
    assert pat[0..] == pat && s[0..] == s;
  }

  lemma {:induction false} Finish(pat: Bytes, s: Bytes, pi: nat, star: Option<(nat, nat)>)
    requires Deciding(pat, s, pi, |s|, star)
    ensures AllStars(pat[pi..]) <==> Matches(pat, s)
  {
    assert s[|s|..] == [];
    MatchesNothing(pat[pi..]);
    if star.Some? && star.value.1 < |s| {
      NoRoomLeft(pat, s, star.value.0, star.value.1, pi);
    }
  }

  lemma StepsLeft(moves: nat, n: nat, w: nat)
    ensures moves <= n ==> moves * (w + 1) <= n * (w + 1)
    ensures moves < n ==> moves * (w + 1) + (w + 1) <= n * (w + 1)
    ensures (moves + 1) * (w + 1) == moves * (w + 1) + (w + 1)
  {
    if moves < n {
      assert (n - moves - 1) * (w + 1) >= 0;
    }
  }
}
