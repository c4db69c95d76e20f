/** Line boundaries: what stepping on BOL, EOL or BOLEOL a number of times reaches, and when that is
    every state that anchors and empty moves lead to. */
module Boundary {
  import opened Strip
  import opened StateVectors
  import opened Stepping

  /** How often fast() and slow() repeat the step on a line boundary. */
  function Rounds(g: Guts, flag: Code): nat {
    (if flag == BOL || flag == BOLEOL then g.nbol else 0) + (if flag == EOL || flag == BOLEOL then g.neol else 0)
  }

  predicate IsLineFlag(flag: Code) {
    flag == BOL || flag == EOL || flag == BOLEOL || flag == NOTHING
  }

  /** What `i` steps on the boundary make of `s`; `same` as in `Stepped`. */
  ghost function Rounded(g: Guts, lo: int, hi: int, same: bool, flag: Code, s: set<int>, i: nat): set<int>
    requires 0 <= lo <= hi <= |g.strip|
    decreases i
  {
    if i == 0 then s
    else var t := Rounded(g, lo, hi, same, flag, s, i - 1); Stepped(g, lo, hi, same, flag, t, t)
  }

  // ----- ways over anchors -----

  /** A way of n moves inside the segment from p to q: empty moves, and moves over no more than k
      anchors that the boundary opens. */
  ghost predicate Way(g: Guts, lo: int, hi: int, flag: Code, p: int, q: int, n: nat, k: nat)
    requires 0 <= lo <= hi <= |g.strip|
    decreases n
  {
    if n == 0 then p == q
    else
      || (k > 0 && lo <= q - 1 < hi && Consumes(g, g.strip[q - 1], flag) && Way(g, lo, hi, flag, p, q - 1, n - 1, k - 1))
      || exists r :: lo <= r < hi && EmptyEdge(g, r, q) && Way(g, lo, hi, flag, p, r, n - 1, k)
  }

  /** Some state of `s` leads to q over no more than k anchors. */
  ghost predicate Over(g: Guts, lo: int, hi: int, flag: Code, s: set<int>, q: int, k: nat)
    requires 0 <= lo <= hi <= |g.strip|
  {
    exists p, n: nat :: p in s && Way(g, lo, hi, flag, p, q, n, k)
  }

  lemma OverItself(g: Guts, lo: int, hi: int, flag: Code, s: set<int>, q: int, k: nat)
    requires 0 <= lo <= hi <= |g.strip| && q in s
    ensures Over(g, lo, hi, flag, s, q, k)
  {
    assert Way(g, lo, hi, flag, q, q, 0, k);
  }

  /** One more empty move, or one more anchor, or only a larger allowance. */
  lemma {:induction false} WayMore(g: Guts, lo: int, hi: int, flag: Code, p: int, q: int, n: nat, k: nat, k': nat)
    requires 0 <= lo <= hi <= |g.strip| && k <= k' && Way(g, lo, hi, flag, p, q, n, k)
    ensures Way(g, lo, hi, flag, p, q, n, k')
    decreases n
  {
    if n > 0 {
      if k > 0 && lo <= q - 1 < hi && Consumes(g, g.strip[q - 1], flag) && Way(g, lo, hi, flag, p, q - 1, n - 1, k - 1) {
        WayMore(g, lo, hi, flag, p, q - 1, n - 1, k - 1, k' - 1);
      } else {
        var r :| lo <= r < hi && EmptyEdge(g, r, q) && Way(g, lo, hi, flag, p, r, n - 1, k);
        WayMore(g, lo, hi, flag, p, r, n - 1, k, k');
      }
    }
  }

  lemma OverThen(g: Guts, lo: int, hi: int, flag: Code, s: set<int>, r: int, q: int, k: nat)
    requires 0 <= lo <= hi <= |g.strip| && lo <= r < hi && Over(g, lo, hi, flag, s, r, k)
    ensures EmptyEdge(g, r, q) ==> Over(g, lo, hi, flag, s, q, k)
    ensures Consumes(g, g.strip[r], flag) ==> Over(g, lo, hi, flag, s, r + 1, k + 1)
    ensures Over(g, lo, hi, flag, s, r, k + 1)
  {
    var p, n: nat :| p in s && Way(g, lo, hi, flag, p, r, n, k);
    WayMore(g, lo, hi, flag, p, r, n, k, k + 1);
    if EmptyEdge(g, r, q) { assert Way(g, lo, hi, flag, p, q, n + 1, k); }
    if Consumes(g, g.strip[r], flag) { assert Way(g, lo, hi, flag, p, r + 1, n + 1, k + 1); }
  }

  /** What is closed keeps all ways that begin in it. */
  lemma {:induction false} ClosedKeepsWays(g: Guts, lo: int, hi: int, flag: Code, c: set<int>, p: int, q: int, n: nat, k: nat)
    requires Scannable(g, lo, hi) && Closed(g, lo, hi, flag, c) && p in c && Way(g, lo, hi, flag, p, q, n, k)
    ensures q in c
    decreases n
  {
    if n > 0 {
      if k > 0 && lo <= q - 1 < hi && Consumes(g, g.strip[q - 1], flag) && Way(g, lo, hi, flag, p, q - 1, n - 1, k - 1) {
        ClosedKeepsWays(g, lo, hi, flag, c, p, q - 1, n - 1, k - 1);
        assert ClosedAt(g, flag, c, q - 1);
      } else {
        var r :| lo <= r < hi && EmptyEdge(g, r, q) && Way(g, lo, hi, flag, p, r, n - 1, k);
        ClosedKeepsWays(g, lo, hi, flag, c, p, r, n - 1, k);
        assert ClosedAt(g, flag, c, r);
      }
    }
  }

  /** Closed under a code's moves and the empty moves means closed under the empty moves. */
  lemma ClosedForNothing(g: Guts, lo: int, hi: int, ch: Code, s: set<int>)
    requires 0 <= lo <= hi <= |g.strip| && Closed(g, lo, hi, ch, s)
    ensures Closed(g, lo, hi, NOTHING, s) && Shift(g, lo, hi, ch, s) <= s
  {
    forall p | p in s && lo <= p < hi ensures ClosedAt(g, NOTHING, s, p) && (Consumes(g, g.strip[p], ch) ==> p + 1 in s) {
      assert ClosedAt(g, ch, s, p);
    }
  }

  lemma ShiftMonotone(g: Guts, lo: int, hi: int, ch: Code, s: set<int>, t: set<int>)
    requires 0 <= lo <= hi <= |g.strip| && s <= t
    ensures Shift(g, lo, hi, ch, s) <= Shift(g, lo, hi, ch, t)
  {
  }

  // ----- what the rounds reach -----

  /** All rounds stay inside the closure; when the two vectors are one, the first reaches it. */
  lemma {:induction false} RoundedBasics(g: Guts, lo: int, hi: int, same: bool, flag: Code, s: set<int>, i: nat)
    requires Scannable(g, lo, hi) && Inside(lo, hi, s) && Closed(g, lo, hi, NOTHING, s)
    ensures var r := Rounded(g, lo, hi, same, flag, s, i);
            && s <= r <= Close(g, lo, hi, flag, s) && Inside(lo, hi, r) && Closed(g, lo, hi, NOTHING, r)
            && (same && i > 0 ==> r == Close(g, lo, hi, flag, s))
    decreases i
  {
    hide OpOk, Closed, Close, Stepped;
    CloseIsClosed(g, lo, hi, flag, s);
    if i > 0 {
      RoundedBasics(g, lo, hi, same, flag, s, i - 1);
      RoundStays(g, lo, hi, same, flag, s, Rounded(g, lo, hi, same, flag, s, i - 1));
    }
  }

  lemma RoundStays(g: Guts, lo: int, hi: int, same: bool, flag: Code, s: set<int>, t: set<int>)
    requires Scannable(g, lo, hi) && Inside(lo, hi, s) && Inside(lo, hi, t) && s <= t <= Close(g, lo, hi, flag, s)
    ensures var r := Stepped(g, lo, hi, same, flag, t, t);
            && t <= r <= Close(g, lo, hi, flag, s) && Inside(lo, hi, r) && Closed(g, lo, hi, NOTHING, r)
            && (same ==> r == Close(g, lo, hi, flag, s))
  {
    var c := Close(g, lo, hi, flag, s);
    CloseIsClosed(g, lo, hi, flag, s);
    ClosedForNothing(g, lo, hi, flag, c);
    if same {
      CloseIsClosed(g, lo, hi, flag, t);
      CloseIsLeast(g, lo, hi, flag, t, c);
      CloseMonotone(g, lo, hi, flag, s, t);
      ClosedForNothing(g, lo, hi, flag, Close(g, lo, hi, flag, t));
    } else {
      var base := t + Shift(g, lo, hi, flag, t);
      ShiftMonotone(g, lo, hi, flag, t, c);
      CloseIsClosed(g, lo, hi, NOTHING, base);
      CloseIsLeast(g, lo, hi, NOTHING, base, c);
    }
  }

  /** After `i` rounds by value the set holds exactly the states that are reached over no more than
      `i` anchors. */
  lemma {:induction false} RoundsReach(g: Guts, lo: int, hi: int, flag: Code, s: set<int>, i: nat, q: int)
    requires Scannable(g, lo, hi) && Inside(lo, hi, s) && Closed(g, lo, hi, NOTHING, s)
    ensures q in Rounded(g, lo, hi, false, flag, s, i) <==> Over(g, lo, hi, flag, s, q, i)
    decreases i
  {
    if q in Rounded(g, lo, hi, false, flag, s, i) { RoundsOver(g, lo, hi, flag, s, i); }
    if Over(g, lo, hi, flag, s, q, i) {
      var p, n: nat :| p in s && Way(g, lo, hi, flag, p, q, n, i);
      WayIsTaken(g, lo, hi, flag, s, p, q, n, i);
    }
  }

  lemma {:induction false} RoundsOver(g: Guts, lo: int, hi: int, flag: Code, s: set<int>, i: nat)
    requires Scannable(g, lo, hi) && Inside(lo, hi, s)
    ensures forall q | q in Rounded(g, lo, hi, false, flag, s, i) :: Over(g, lo, hi, flag, s, q, i)
    decreases i
  {
    if i == 0 {
      forall q | q in s ensures Over(g, lo, hi, flag, s, q, 0) { OverItself(g, lo, hi, flag, s, q, 0); }
    } else {
      RoundsOver(g, lo, hi, flag, s, i - 1);
      var t := Rounded(g, lo, hi, false, flag, s, i - 1);
      OverOneMore(g, lo, hi, flag, s, t, i - 1);
    }
  }

  lemma OverOneMore(g: Guts, lo: int, hi: int, flag: Code, s: set<int>, t: set<int>, i: nat)
    requires Scannable(g, lo, hi) && Inside(lo, hi, s)
    requires forall q | q in t :: Over(g, lo, hi, flag, s, q, i)
    ensures forall q | q in Stepped(g, lo, hi, false, flag, t, t) :: Over(g, lo, hi, flag, s, q, i + 1)
  {
    var k: nat := i + 1;
    var c := set q | lo <= q <= hi && Over(g, lo, hi, flag, s, q, k);
    var base := t + Shift(g, lo, hi, flag, t);
    hide EmptyEdge, Consumes;
    forall q | q in t ensures lo <= q <= hi && Over(g, lo, hi, flag, s, q, i + 1) {
      var p, n: nat :| p in s && Way(g, lo, hi, flag, p, q, n, i);
      WayMore(g, lo, hi, flag, p, q, n, i, i + 1);
      WayInside(g, lo, hi, flag, p, q, n, i);
    }
    forall q | q in Shift(g, lo, hi, flag, t) ensures q in c {
      OverThen(g, lo, hi, flag, s, q - 1, q, i);
    }
    forall p | p in c && lo <= p < hi ensures ClosedAt(g, NOTHING, c, p) {
      assert OpOk(g, lo, hi, p);
      forall q | EmptyEdge(g, p, q) ensures q in c { OverThen(g, lo, hi, flag, s, p, q, i + 1); }
    }
    CloseIsLeast(g, lo, hi, NOTHING, base, c);
  }

  lemma {:induction false} WayInside(g: Guts, lo: int, hi: int, flag: Code, p: int, q: int, n: nat, k: nat)
    requires Scannable(g, lo, hi) && lo <= p <= hi && Way(g, lo, hi, flag, p, q, n, k)
    ensures lo <= q <= hi
    decreases n
  {
    if n > 0 {
      if k > 0 && lo <= q - 1 < hi && Consumes(g, g.strip[q - 1], flag) && Way(g, lo, hi, flag, p, q - 1, n - 1, k - 1) {
      } else {
        var r :| lo <= r < hi && EmptyEdge(g, r, q) && Way(g, lo, hi, flag, p, r, n - 1, k);
        assert OpOk(g, lo, hi, r);
      }
    }
  }

  lemma {:induction false} WayIsTaken(g: Guts, lo: int, hi: int, flag: Code, s: set<int>, p: int, q: int, n: nat, i: nat)
    requires Scannable(g, lo, hi) && Inside(lo, hi, s) && Closed(g, lo, hi, NOTHING, s)
    requires p in s && Way(g, lo, hi, flag, p, q, n, i)
    ensures q in Rounded(g, lo, hi, false, flag, s, i)
    decreases n
  {
    hide OpOk, Closed, Close, Shift;
    RoundedBasics(g, lo, hi, false, flag, s, i);
    if n > 0 {
      if i > 0 && lo <= q - 1 < hi && Consumes(g, g.strip[q - 1], flag) && Way(g, lo, hi, flag, p, q - 1, n - 1, i - 1) {
        WayIsTaken(g, lo, hi, flag, s, p, q - 1, n - 1, i - 1);
        RoundTakes(g, lo, hi, flag, s, q - 1, i);
      } else {
        var r :| lo <= r < hi && EmptyEdge(g, r, q) && Way(g, lo, hi, flag, p, r, n - 1, i);
        WayIsTaken(g, lo, hi, flag, s, p, r, n - 1, i);
        MoveStays(g, lo, hi, Rounded(g, lo, hi, false, flag, s, i), r, q);
      }
    }
  }

  lemma MoveStays(g: Guts, lo: int, hi: int, c: set<int>, r: int, q: int)
    requires 0 <= lo <= r < hi <= |g.strip| && Closed(g, lo, hi, NOTHING, c) && r in c && EmptyEdge(g, r, q)
    ensures q in c
  {
    assert ClosedAt(g, NOTHING, c, r);
  }

  lemma RoundTakes(g: Guts, lo: int, hi: int, flag: Code, s: set<int>, r: int, i: nat)
    requires Scannable(g, lo, hi) && Inside(lo, hi, s) && Closed(g, lo, hi, NOTHING, s) && i > 0
    requires lo <= r < hi && Consumes(g, g.strip[r], flag) && r in Rounded(g, lo, hi, false, flag, s, i - 1)
    ensures r + 1 in Rounded(g, lo, hi, false, flag, s, i)
  {
    hide Close;
    var t := Rounded(g, lo, hi, false, flag, s, i - 1);
    RoundedBasics(g, lo, hi, false, flag, s, i - 1);
    assert r + 1 in Shift(g, lo, hi, flag, t);
    CloseIsClosed(g, lo, hi, NOTHING, t + Shift(g, lo, hi, flag, t));
  }

  /** The rounds for a union reach what they reach for its parts. */
  lemma {:induction false} RoundedUnion(g: Guts, lo: int, hi: int, same: bool, flag: Code, s: set<int>, t: set<int>, i: nat)
    requires Scannable(g, lo, hi) && Inside(lo, hi, s) && Inside(lo, hi, t)
    requires Closed(g, lo, hi, NOTHING, s) && Closed(g, lo, hi, NOTHING, t)
    ensures Rounded(g, lo, hi, same, flag, s + t, i) ==
            Rounded(g, lo, hi, same, flag, s, i) + Rounded(g, lo, hi, same, flag, t, i)
    decreases i
  {
    hide OpOk, Closed, Close, Shift;
    if i > 0 {
      RoundedUnion(g, lo, hi, same, flag, s, t, i - 1);
      RoundedBasics(g, lo, hi, same, flag, s, i - 1);
      RoundedBasics(g, lo, hi, same, flag, t, i - 1);
      var a, b := Rounded(g, lo, hi, same, flag, s, i - 1), Rounded(g, lo, hi, same, flag, t, i - 1);
      if same {
        CloseUnion(g, lo, hi, flag, a, b);
      } else {
        ShiftUnion(g, lo, hi, flag, a, b);
        var c, d := a + Shift(g, lo, hi, flag, a), b + Shift(g, lo, hi, flag, b);
        assert (a + b) + Shift(g, lo, hi, flag, a + b) == c + d;
        ShiftInside(g, lo, hi, flag, a);
        ShiftInside(g, lo, hi, flag, b);
        CloseUnion(g, lo, hi, NOTHING, c, d);
      }
    }
  }

  lemma ShiftUnion(g: Guts, lo: int, hi: int, ch: Code, s: set<int>, t: set<int>)
    requires 0 <= lo <= hi <= |g.strip|
    ensures Shift(g, lo, hi, ch, s + t) == Shift(g, lo, hi, ch, s) + Shift(g, lo, hi, ch, t)
  {
  }

  lemma ShiftInside(g: Guts, lo: int, hi: int, ch: Code, s: set<int>)
    requires 0 <= lo <= hi <= |g.strip|
    ensures Inside(lo, hi, Shift(g, lo, hi, ch, s))
  {
  }

  // ----- when the rounds reach everything -----

  /** Every state of the closure is reached over no more than `i` anchors; in the large build, where
      the first round reaches everything, it is enough that there is one. */
  ghost predicate Enough(g: Guts, lo: int, hi: int, large: bool, flag: Code, s: set<int>, i: nat)
    requires 0 <= lo <= hi <= |g.strip|
  {
    (large && i > 0) || forall q | q in Close(g, lo, hi, flag, s) :: Over(g, lo, hi, flag, s, q, i)
  }

  /** The rounds end with the full fixpoint exactly when there are enough of them. */
  lemma RoundsEndIff(g: Guts, lo: int, hi: int, large: bool, flag: Code, s: set<int>, i: nat)
    requires Scannable(g, lo, hi) && Inside(lo, hi, s) && Closed(g, lo, hi, NOTHING, s)
    ensures Rounded(g, lo, hi, large, flag, s, i) == Close(g, lo, hi, flag, s) <==> Enough(g, lo, hi, large, flag, s, i)
  {
    hide OpOk, Closed, Close, Over;
    RoundedBasics(g, lo, hi, large, flag, s, i);
    if !large || i == 0 {
      var r := Rounded(g, lo, hi, false, flag, s, i);
      assert r == Rounded(g, lo, hi, large, flag, s, i);
      forall q ensures q in r <==> Over(g, lo, hi, flag, s, q, i) { RoundsReach(g, lo, hi, flag, s, i, q); }
      if Enough(g, lo, hi, large, flag, s, i) {
        forall q | q in Close(g, lo, hi, flag, s) ensures q in r { assert Over(g, lo, hi, flag, s, q, i); }
      }
    }
  }

  /** In the large build: there is a round, or nothing is left to reach. */
  lemma LargeEndsIff(g: Guts, lo: int, hi: int, flag: Code, s: set<int>, i: nat)
    requires Scannable(g, lo, hi) && Inside(lo, hi, s) && Closed(g, lo, hi, NOTHING, s)
    ensures Enough(g, lo, hi, true, flag, s, i) <==> i > 0 || Closed(g, lo, hi, flag, s)
  {
    RoundsEndIff(g, lo, hi, true, flag, s, i);
    CloseIsClosed(g, lo, hi, flag, s);
    if i == 0 && Closed(g, lo, hi, flag, s) { CloseUnique(g, lo, hi, flag, s, s); }
  }

  // ----- a condition on the expression -----

  /** Whatever lies on the way over anchors is reached over no more of them than there are rounds. */
  ghost predicate EnoughRounds(large: bool, g: Guts) {
    forall lo, hi, flag, p, q, n: nat, k: nat
      | Scannable(g, lo, hi) && IsLineFlag(flag) && lo <= p <= hi && Way(g, lo, hi, flag, p, q, n, k) ::
      (large && Rounds(g, flag) > 0) || Over(g, lo, hi, flag, {p}, q, Rounds(g, flag))
  }

  /** The state q is reached from `s`, over any number of anchors. */
  ghost predicate Somehow(g: Guts, lo: int, hi: int, flag: Code, s: set<int>, q: int)
    requires 0 <= lo <= hi <= |g.strip|
  {
    exists k: nat :: Over(g, lo, hi, flag, s, q, k)
  }

  lemma SomehowThen(g: Guts, lo: int, hi: int, flag: Code, s: set<int>, r: int, q: int)
    requires 0 <= lo <= hi <= |g.strip| && lo <= r < hi && Somehow(g, lo, hi, flag, s, r)
    ensures EmptyEdge(g, r, q) ==> Somehow(g, lo, hi, flag, s, q)
    ensures Consumes(g, g.strip[r], flag) ==> Somehow(g, lo, hi, flag, s, r + 1)
  {
    var k: nat :| Over(g, lo, hi, flag, s, r, k);
    OverThen(g, lo, hi, flag, s, r, q, k);
  }

  /** The closure holds nothing that is not reached. */
  lemma ClosureIsReached(g: Guts, lo: int, hi: int, flag: Code, s: set<int>)
    requires Scannable(g, lo, hi) && Inside(lo, hi, s)
    ensures forall q | q in Close(g, lo, hi, flag, s) :: Somehow(g, lo, hi, flag, s, q)
  {
    hide EmptyEdge, Consumes, Over;
    var c := set q | lo <= q <= hi && Somehow(g, lo, hi, flag, s, q);
    forall q | q in s ensures q in c { OverItself(g, lo, hi, flag, s, q, 0); }
    forall p | p in c && lo <= p < hi ensures ClosedAt(g, flag, c, p) {
      assert OpOk(g, lo, hi, p);
      if Consumes(g, g.strip[p], flag) { SomehowThen(g, lo, hi, flag, s, p, p + 1); }
      forall q | EmptyEdge(g, p, q) ensures q in c { SomehowThen(g, lo, hi, flag, s, p, q); }
    }
    CloseIsLeast(g, lo, hi, flag, s, c);
  }

  /** Without anchors: the closure under the empty moves. */
  lemma EmptyClosureIsReached(g: Guts, lo: int, hi: int, flag: Code, s: set<int>)
    requires Scannable(g, lo, hi) && Inside(lo, hi, s)
    ensures forall q | q in Close(g, lo, hi, NOTHING, s) :: Over(g, lo, hi, flag, s, q, 0)
  {
    hide EmptyEdge, Over;
    var k: nat := 0;
    var c := set q | lo <= q <= hi && Over(g, lo, hi, flag, s, q, k);
    forall q | q in s ensures q in c { OverItself(g, lo, hi, flag, s, q, 0); }
    forall p | p in c && lo <= p < hi ensures ClosedAt(g, NOTHING, c, p) {
      assert OpOk(g, lo, hi, p);
      forall q | EmptyEdge(g, p, q) ensures q in c { OverThen(g, lo, hi, flag, s, p, q, 0); }
    }
    CloseIsLeast(g, lo, hi, NOTHING, s, c);
  }

  lemma {:induction false} WaysJoin(g: Guts, lo: int, hi: int, flag: Code, s: set<int>, p: int, q: int, n: nat, k: nat)
    requires Scannable(g, lo, hi) && Over(g, lo, hi, flag, s, p, 0) && Way(g, lo, hi, flag, p, q, n, k)
    ensures Over(g, lo, hi, flag, s, q, k)
    decreases n
  {
    if n == 0 {
      var p', n': nat :| p' in s && Way(g, lo, hi, flag, p', p, n', 0);
      WayMore(g, lo, hi, flag, p', p, n', 0, k);
    } else if k > 0 && lo <= q - 1 < hi && Consumes(g, g.strip[q - 1], flag) && Way(g, lo, hi, flag, p, q - 1, n - 1, k - 1) {
      WaysJoin(g, lo, hi, flag, s, p, q - 1, n - 1, k - 1);
      OverThen(g, lo, hi, flag, s, q - 1, q, k - 1);
    } else {
      var r :| lo <= r < hi && EmptyEdge(g, r, q) && Way(g, lo, hi, flag, p, r, n - 1, k);
      WaysJoin(g, lo, hi, flag, s, p, r, n - 1, k);
      OverThen(g, lo, hi, flag, s, r, q, k);
    }
  }

  lemma EnoughForAll(large: bool, g: Guts, lo: int, hi: int, flag: Code, s: set<int>)
    requires EnoughRounds(large, g) && Scannable(g, lo, hi) && Inside(lo, hi, s) && IsLineFlag(flag)
    ensures Enough(g, lo, hi, large, flag, s, Rounds(g, flag))
  {
    hide OpOk, Close;
    ClosureIsReached(g, lo, hi, flag, s);
    forall q | q in Close(g, lo, hi, flag, s) && !(large && Rounds(g, flag) > 0)
      ensures Over(g, lo, hi, flag, s, q, Rounds(g, flag))
    {
      assert Somehow(g, lo, hi, flag, s, q);
      var k: nat :| Over(g, lo, hi, flag, s, q, k);
      var p, n: nat :| p in s && Way(g, lo, hi, flag, p, q, n, k);
      assert Over(g, lo, hi, flag, {p}, q, Rounds(g, flag));
    }
  }

  /** The rounds at this boundary end with the full fixpoint. */
  ghost predicate RoundsEnd(large: bool, g: Guts, lo: int, hi: int, flag: Code, s: set<int>)
    requires 0 <= lo <= hi <= |g.strip|
  {
    Rounded(g, lo, hi, large, flag, s, Rounds(g, flag)) == Close(g, lo, hi, flag, s)
  }

  lemma OneWayEnds(large: bool, g: Guts, lo: int, hi: int, flag: Code, p: int, q: int, n: nat, k: nat)
    requires Scannable(g, lo, hi) && IsLineFlag(flag) && lo <= p <= hi && Way(g, lo, hi, flag, p, q, n, k)
    requires RoundsEnd(large, g, lo, hi, flag, Close(g, lo, hi, NOTHING, {p}))
    ensures (large && Rounds(g, flag) > 0) || Over(g, lo, hi, flag, {p}, q, Rounds(g, flag))
  {
    hide OpOk, Close;
    var s := Close(g, lo, hi, NOTHING, {p});
    CloseIsClosed(g, lo, hi, NOTHING, {p});
    CloseIsClosed(g, lo, hi, flag, s);
    ClosedKeepsWays(g, lo, hi, flag, Close(g, lo, hi, flag, s), p, q, n, k);
    RoundsEndIff(g, lo, hi, large, flag, s, Rounds(g, flag));
    if !(large && Rounds(g, flag) > 0) {
      assert Over(g, lo, hi, flag, s, q, Rounds(g, flag));
      var p', n': nat :| p' in s && Way(g, lo, hi, flag, p', q, n', Rounds(g, flag));
      EmptyClosureIsReached(g, lo, hi, flag, {p});
      WaysJoin(g, lo, hi, flag, {p}, p', q, n', Rounds(g, flag));
    }
  }

  /** The condition is exact: it holds of an expression if and only if the rounds end with the full
      fixpoint in every segment, at every line boundary, from every set of states that is closed
      under the empty moves. */
  lemma EnoughRoundsIff(large: bool, g: Guts)
    ensures EnoughRounds(large, g) <==>
            forall lo, hi, flag, s
              | Scannable(g, lo, hi) && IsLineFlag(flag) && Inside(lo, hi, s) && Closed(g, lo, hi, NOTHING, s) ::
              RoundsEnd(large, g, lo, hi, flag, s)
  {
    hide OpOk, Close, Closed, Rounded, Over;
    if EnoughRounds(large, g) {
      forall lo, hi, flag, s
        | Scannable(g, lo, hi) && IsLineFlag(flag) && Inside(lo, hi, s) && Closed(g, lo, hi, NOTHING, s)
        ensures RoundsEnd(large, g, lo, hi, flag, s)
      {
        EnoughForAll(large, g, lo, hi, flag, s);
        RoundsEndIff(g, lo, hi, large, flag, s, Rounds(g, flag));
      }
    }
    if forall lo, hi, flag, s
         | Scannable(g, lo, hi) && IsLineFlag(flag) && Inside(lo, hi, s) && Closed(g, lo, hi, NOTHING, s) ::
         RoundsEnd(large, g, lo, hi, flag, s)
    {
      forall lo, hi, flag, p, q, n: nat, k: nat
        | Scannable(g, lo, hi) && IsLineFlag(flag) && lo <= p <= hi && Way(g, lo, hi, flag, p, q, n, k)
        ensures (large && Rounds(g, flag) > 0) || Over(g, lo, hi, flag, {p}, q, Rounds(g, flag))
      {
        CloseIsClosed(g, lo, hi, NOTHING, {p});
        OneWayEnds(large, g, lo, hi, flag, p, q, n, k);
      }
    }
  }

  // ----- calls of step -----

  /** `st = step(g, startst, stopst, bef, ch, aft)`.  The small build passes its words by value,
      so there `bef` is a copy even when the caller names one vector twice; the large build
      passes pointers. */
  method CallStep(g: Guts, start: nat, stop: nat, bef: States, ch: Code, aft: States)
    requires Scannable(g, start, stop) && aft.nstates == |g.strip|
    requires bef.Valid() && aft.Valid() && aft.Beside(bef)
    requires Inside(start, stop, aft.Elems())
    modifies aft, aft.bytes
    ensures aft.Valid()
    ensures aft.Elems() ==
            old(Stepped(g, start, stop, aft.large && bef == aft, ch, bef.Elems(), aft.Elems()))
  {
    if aft.large || bef != aft {
      Step(g, start, stop, bef, ch, aft);
    } else {
      var copy := new States(aft.large, aft.nstates);
      copy.Assign(bef);
      Step(g, start, stop, copy, ch, aft);
    }
  }

  /** The loop of fast() and slow() at a line boundary: what it reaches, and when that is all. */
  method StepOnBoundary(g: Guts, start: nat, stop: nat, flag: Code, rounds: nat, st: States)
    requires Scannable(g, start, stop) && st.nstates == |g.strip| && st.Valid()
    requires Inside(start, stop, st.Elems()) && Closed(g, start, stop, NOTHING, st.Elems())
    modifies st, st.bytes
    ensures st.Valid()
    ensures st.Elems() == Rounded(g, start, stop, st.large, flag, old(st.Elems()), rounds)
    ensures st.Elems() == Close(g, start, stop, flag, old(st.Elems())) <==>
            Enough(g, start, stop, st.large, flag, old(st.Elems()), rounds)
  {
    hide Close;
    ghost var s0 := st.Elems();
    RoundsEndIff(g, start, stop, st.large, flag, s0, rounds);
    var i := rounds;
    while i > 0
      invariant 0 <= i <= rounds && st.Valid()
      invariant st.Elems() == Rounded(g, start, stop, st.large, flag, s0, rounds - i)
    {
      RoundedBasics(g, start, stop, st.large, flag, s0, rounds - i);
      CallStep(g, start, stop, st, flag, st);
      i := i - 1;
    }
  }
}
