/** How `nbol` and `neol` come to be large enough: because no anchor goes uncounted, because the build
    is the large one, or because the anchors stand apart. */
module AnchorCounts {
  import opened Strip
  import opened Boundary

  ghost function BolOps(g: Guts): set<int> {
    set p | 0 <= p < |g.strip| && g.strip[p].OBOL?
  }

  ghost function EolOps(g: Guts): set<int> {
    set p | 0 <= p < |g.strip| && g.strip[p].OEOL?
  }

  /** `nbol` and `neol` are no smaller than the numbers of anchors in the strip. */
  ghost predicate CountsAnchors(g: Guts) {
    |BolOps(g)| <= g.nbol && |EolOps(g)| <= g.neol
  }

  /** Anchors that the boundary opens and whose far side has not been reached. */
  ghost function Unfired(g: Guts, lo: int, hi: int, flag: Code, s: set<int>): set<int>
    requires 0 <= lo <= hi <= |g.strip|
  {
    set p | lo <= p < hi && Consumes(g, g.strip[p], flag) && p + 1 !in s
  }

  /** `i` more rounds are enough. */
  ghost predicate NearlyClosed(g: Guts, lo: int, hi: int, flag: Code, s: set<int>, i: int)
    requires 0 <= lo <= hi <= |g.strip|
  {
    Closed(g, lo, hi, flag, s) || |Unfired(g, lo, hi, flag, s)| <= i
  }

  lemma SubsetSize<T>(a: set<T>, b: set<T>)
    requires a <= b
    ensures |a| <= |b| && (a != b ==> |a| < |b|)
  {
    assert b == a + (b - a);
  }

  lemma UnionSize<T>(u: set<T>, b: set<T>, e: set<T>)
    requires u <= b + e
    ensures |u| <= |b| + |e|
  {
    assert b + e == b + (e - b);
    SubsetSize(e - b, e);
    SubsetSize(u, b + e);
  }

  lemma RoundsSuffice(g: Guts, lo: int, hi: int, flag: Code, s: set<int>)
    requires 0 <= lo <= hi <= |g.strip| && CountsAnchors(g) && IsLineFlag(flag)
    ensures |Unfired(g, lo, hi, flag, s)| <= Rounds(g, flag)
  {
    var u := Unfired(g, lo, hi, flag, s);
    if flag == BOL {
      SubsetSize(u, BolOps(g));
    } else if flag == EOL {
      SubsetSize(u, EolOps(g));
    } else if flag == BOLEOL {
      UnionSize(u, BolOps(g), EolOps(g));
    } else {
      assert u == {};
    }
  }

  lemma NothingLeft(g: Guts, lo: int, hi: int, flag: Code, s: set<int>)
    requires 0 <= lo <= hi <= |g.strip| && Closed(g, lo, hi, NOTHING, s) && NearlyClosed(g, lo, hi, flag, s, 0)
    ensures Closed(g, lo, hi, flag, s)
  {
    if |Unfired(g, lo, hi, flag, s)| <= 0 {
      assert Unfired(g, lo, hi, flag, s) == {};
      forall p | p in s && lo <= p < hi ensures ClosedAt(g, flag, s, p) {
        assert ClosedAt(g, NOTHING, s, p);
        assert p !in Unfired(g, lo, hi, flag, s);
      }
    }
  }

  lemma RoundFires(g: Guts, lo: int, hi: int, flag: Code, s: set<int>, i: int)
    requires Scannable(g, lo, hi) && Inside(lo, hi, s) && Closed(g, lo, hi, NOTHING, s)
    requires NearlyClosed(g, lo, hi, flag, s, i) && i > 0
    ensures NearlyClosed(g, lo, hi, flag, Close(g, lo, hi, NOTHING, s + Shift(g, lo, hi, flag, s)), i - 1)
  {
    hide OpOk, Close, Unfired;
    var base := s + Shift(g, lo, hi, flag, s);
    var r := Close(g, lo, hi, NOTHING, base);
    CloseIsClosed(g, lo, hi, NOTHING, base);
    if Closed(g, lo, hi, flag, s) {
      ClosedForNothing(g, lo, hi, flag, s);
      CloseIsLeast(g, lo, hi, NOTHING, base, s);
    } else {
      FiresOne(g, lo, hi, flag, s, r);
    }
  }

  /** An anchor that is open and not yet passed is passed when the round takes all moves on the boundary. */
  lemma FiresOne(g: Guts, lo: int, hi: int, flag: Code, s: set<int>, r: set<int>)
    requires 0 <= lo <= hi <= |g.strip| && Closed(g, lo, hi, NOTHING, s) && !Closed(g, lo, hi, flag, s)
    requires s + Shift(g, lo, hi, flag, s) <= r
    ensures |Unfired(g, lo, hi, flag, r)| < |Unfired(g, lo, hi, flag, s)|
  {
    var p :| p in s && lo <= p < hi && !ClosedAt(g, flag, s, p);
    assert ClosedAt(g, NOTHING, s, p);
    assert p in Unfired(g, lo, hi, flag, s) && p !in Unfired(g, lo, hi, flag, r);
    SubsetSize(Unfired(g, lo, hi, flag, r), Unfired(g, lo, hi, flag, s));
  }

  /** So the rounds suffice wherever no anchor goes uncounted. */
  lemma {:induction false} CountedRounds(g: Guts, lo: int, hi: int, large: bool, flag: Code, s: set<int>, i: nat)
    requires Scannable(g, lo, hi) && Inside(lo, hi, s) && Closed(g, lo, hi, NOTHING, s)
    requires CountsAnchors(g) && IsLineFlag(flag) && i <= Rounds(g, flag)
    ensures NearlyClosed(g, lo, hi, flag, Rounded(g, lo, hi, large, flag, s, i), Rounds(g, flag) - i)
    decreases i
  {
    hide OpOk, Close, Shift, Unfired;
    if i == 0 {
      RoundsSuffice(g, lo, hi, flag, s);
    } else {
      CountedRounds(g, lo, hi, large, flag, s, i - 1);
      RoundedBasics(g, lo, hi, large, flag, s, i - 1);
      RoundedBasics(g, lo, hi, large, flag, s, i);
      CloseIsClosed(g, lo, hi, flag, s);
      if !large { RoundFires(g, lo, hi, flag, Rounded(g, lo, hi, large, flag, s, i - 1), Rounds(g, flag) - i + 1); }
    }
  }

  lemma CountedIsEnough(large: bool, g: Guts)
    requires CountsAnchors(g)
    ensures EnoughRounds(large, g)
  {
    hide OpOk, Close, CountsAnchors, EnoughRounds;
    forall lo, hi, flag, s
      | Scannable(g, lo, hi) && IsLineFlag(flag) && Inside(lo, hi, s) && Closed(g, lo, hi, NOTHING, s)
      ensures RoundsEnd(large, g, lo, hi, flag, s)
    {
      var n := Rounds(g, flag);
      CountedRounds(g, lo, hi, large, flag, s, n);
      RoundedBasics(g, lo, hi, large, flag, s, n);
      NothingLeft(g, lo, hi, flag, Rounded(g, lo, hi, large, flag, s, n));
      CloseUnique(g, lo, hi, flag, s, Rounded(g, lo, hi, large, flag, s, n));
    }
    EnoughRoundsIff(large, g);
  }

  /** In particular where there is none. */
  lemma NoneIsEnough(large: bool, g: Guts)
    requires forall p | 0 <= p < |g.strip| :: !g.strip[p].OBOL? && !g.strip[p].OEOL?
    ensures EnoughRounds(large, g)
  {
    hide EnoughRounds;
    assert BolOps(g) == {} && EolOps(g) == {};
    CountedIsEnough(large, g);
  }

  // ----- two conditions that are easy to check -----

  /** An anchor that is used is counted at least once, as regcomp() does. */
  predicate UsedIsCounted(g: Guts) {
    forall p | 0 <= p < |g.strip| :: (g.strip[p].OBOL? ==> g.nbol > 0) && (g.strip[p].OEOL? ==> g.neol > 0)
  }

  lemma {:induction false} NoAnchorOnWay(g: Guts, lo: int, hi: int, flag: Code, p: int, q: int, n: nat, k: nat)
    requires Scannable(g, lo, hi) && Way(g, lo, hi, flag, p, q, n, k)
    requires forall r | lo <= r < hi :: !Consumes(g, g.strip[r], flag)
    ensures Way(g, lo, hi, flag, p, q, n, 0)
    decreases n
  {
    if n > 0 {
      var r :| lo <= r < hi && EmptyEdge(g, r, q) && Way(g, lo, hi, flag, p, r, n - 1, k);
      NoAnchorOnWay(g, lo, hi, flag, p, r, n - 1, k);
    }
  }

  /** Where that holds the large build always has rounds enough. */
  lemma LargeIsEnough(g: Guts)
    requires UsedIsCounted(g)
    ensures EnoughRounds(true, g)
  {
    hide OpOk, Over;
    forall lo, hi, flag, p, q, n: nat, k: nat
      | Scannable(g, lo, hi) && IsLineFlag(flag) && lo <= p <= hi && Way(g, lo, hi, flag, p, q, n, k)
      ensures Rounds(g, flag) > 0 || Over(g, lo, hi, flag, {p}, q, Rounds(g, flag))
    {
      if Rounds(g, flag) == 0 {
        NoAnchorOnWay(g, lo, hi, flag, p, q, n, k);
        WayIsOver(g, lo, hi, flag, p, q, n, 0);
      }
    }
  }

  lemma WayIsOver(g: Guts, lo: int, hi: int, flag: Code, p: int, q: int, n: nat, k: nat)
    requires 0 <= lo <= hi <= |g.strip| && Way(g, lo, hi, flag, p, q, n, k)
    ensures Over(g, lo, hi, flag, {p}, q, k)
  {
  }

  /** Rounds that suffice by value suffice for one vector under two names. */
  lemma SmallThenLarge(g: Guts)
    requires EnoughRounds(false, g)
    ensures EnoughRounds(true, g)
  {
    hide OpOk, Over;
  }

  /** Behind each anchor stands an operator that no empty move leaves. */
  predicate AnchorsApart(g: Guts) {
    forall p | 0 <= p < |g.strip| && (g.strip[p].OBOL? || g.strip[p].OEOL?) ::
      p + 1 < |g.strip| && (g.strip[p + 1].OEND? || (IsConsuming(g.strip[p + 1]) && !g.strip[p + 1].OBOL? && !g.strip[p + 1].OEOL?))
  }

  ghost predicate BehindAnchor(g: Guts, lo: int, hi: int, flag: Code, q: int)
    requires 0 <= lo <= hi <= |g.strip|
  {
    lo <= q - 1 < hi && Consumes(g, g.strip[q - 1], flag)
  }

  lemma WayEndsThere(g: Guts, lo: int, hi: int, flag: Code, q: int, r: int)
    requires 0 <= lo <= hi <= |g.strip| && IsLineFlag(flag) && AnchorsApart(g) && BehindAnchor(g, lo, hi, flag, q)
    ensures !EmptyEdge(g, q, r) && (q < |g.strip| ==> !Consumes(g, g.strip[q], flag))
  {
  }

  lemma {:induction false} OneAnchorOnWay(g: Guts, lo: int, hi: int, flag: Code, p: int, q: int, n: nat, k: nat)
    requires 0 <= lo <= hi <= |g.strip| && IsLineFlag(flag) && AnchorsApart(g) && Way(g, lo, hi, flag, p, q, n, k)
    ensures Way(g, lo, hi, flag, p, q, n, 1)
    ensures Way(g, lo, hi, flag, p, q, n, 0) || BehindAnchor(g, lo, hi, flag, q)
    decreases n
  {
    hide EmptyEdge, Consumes, AnchorsApart;
    if n > 0 {
      if k > 0 && BehindAnchor(g, lo, hi, flag, q) && Way(g, lo, hi, flag, p, q - 1, n - 1, k - 1) {
        OneAnchorOnWay(g, lo, hi, flag, p, q - 1, n - 1, k - 1);
        if BehindAnchor(g, lo, hi, flag, q - 1) { WayEndsThere(g, lo, hi, flag, q - 1, q); }
      } else {
        var r :| lo <= r < hi && EmptyEdge(g, r, q) && Way(g, lo, hi, flag, p, r, n - 1, k);
        OneAnchorOnWay(g, lo, hi, flag, p, r, n - 1, k);
        if BehindAnchor(g, lo, hi, flag, r) { WayEndsThere(g, lo, hi, flag, r, q); }
        WayMore(g, lo, hi, flag, p, r, n - 1, 0, 1);
      }
    }
  }

  /** Then one round is enough, however many copies of its anchors the strip has. */
  lemma ApartIsEnough(g: Guts)
    requires UsedIsCounted(g) && AnchorsApart(g)
    ensures EnoughRounds(false, g)
  {
    hide OpOk, Over, AnchorsApart;
    forall lo, hi, flag, p, q, n: nat, k: nat
      | Scannable(g, lo, hi) && IsLineFlag(flag) && lo <= p <= hi && Way(g, lo, hi, flag, p, q, n, k)
      ensures Over(g, lo, hi, flag, {p}, q, Rounds(g, flag))
    {
      if Rounds(g, flag) == 0 {
        NoAnchorOnWay(g, lo, hi, flag, p, q, n, k);
        WayIsOver(g, lo, hi, flag, p, q, n, 0);
      } else {
        OneAnchorOnWay(g, lo, hi, flag, p, q, n, k);
        WayMore(g, lo, hi, flag, p, q, n, 1, Rounds(g, flag));
        WayIsOver(g, lo, hi, flag, p, q, n, Rounds(g, flag));
      }
    }
  }
}
