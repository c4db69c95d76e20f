/** The states that runs of the automaton can be in at each text position, and the texts that
    reach the end of a segment. */
module Running {
  import opened Strip
  import opened Regex
  import opened Automaton
  import opened Boundary

  /** A strip segment [lo, hi) in its text, and the build that runs it. */
  datatype Segment = Segment(g: Guts, x: Subject, lo: int, hi: int, large: bool) {
    ghost predicate Valid() {
      Scannable(g, lo, hi) && x.Valid()
    }

    /** The segment is the code of `re`. */
    ghost predicate Codes(re: Re) {
      1 <= lo && hi == lo + Len(re) < |g.strip| && Holds(g.strip, lo, re)
    }

    /** The rounds at line boundaries reach everything that anchors and empty moves lead to. */
    ghost predicate Exact() {
      EnoughRounds(large, g)
    }

    /** What the empty moves, and then the rounds for the line boundary at p, make of `s`. */
    ghost function CrossAt(p: int, s: set<int>): set<int>
      requires Valid()
    {
      var flag := FlagAt(g, x, p);
      Rounded(g, lo, hi, large, flag, Close(g, lo, hi, NOTHING, s), Rounds(g, flag))
    }

    /** What the states `s` at p become by taking the character there. */
    ghost function Took(p: int, s: set<int>): set<int>
      requires Valid()
    {
      if CharAt(x, p) then Shift(g, lo, hi, Char(x.text[p]), s) else {}
    }

    /** The states, at p, of the runs that enter the segment at `from`. */
    ghost function Live(from: int, p: int): set<int>
      requires Valid()
      decreases p - from
    {
      if p < from then {}
      else CrossAt(p, if p == from then {lo} else Took(p - 1, Live(from, p - 1)))
    }

    /** The states, at p, of the runs that enter the segment anywhere in [from, p]. */
    ghost function Sweep(from: int, p: int): set<int>
      requires Valid()
      decreases p - from
    {
      if p < from then {} else CrossAt(p, {lo} + Took(p - 1, Sweep(from, p - 1)))
    }
  }

  lemma CodesValid(m: Segment, re: Re)
    requires m.Codes(re) && m.x.Valid()
    ensures m.Valid()
  {
    SegmentScannable(m.g, m.lo, re);
  }

  lemma TookInside(m: Segment, p: int, s: set<int>)
    requires m.Valid()
    ensures Inside(m.lo, m.hi, m.Took(p, s))
  {
  }

  lemma FlagIsLine(g: Guts, x: Subject, p: int)
    ensures IsLineFlag(FlagAt(g, x, p))
  {
  }

  /** Crossing stays inside the closure; it is the closure where the rounds suffice. */
  lemma CrossAtBasics(m: Segment, p: int, s: set<int>)
    requires m.Valid() && Inside(m.lo, m.hi, s)
    ensures var c := m.CrossAt(p, s);
            && s <= c <= Close(m.g, m.lo, m.hi, FlagAt(m.g, m.x, p), s) && Inside(m.lo, m.hi, c)
            && Closed(m.g, m.lo, m.hi, NOTHING, c)
            && (m.Exact() ==> c == Close(m.g, m.lo, m.hi, FlagAt(m.g, m.x, p), s))
  {
    hide Scannable, Close, Closed, Rounded, EnoughRounds;
    LoInside(m);
    var flag := FlagAt(m.g, m.x, p);
    var n := Close(m.g, m.lo, m.hi, NOTHING, s);
    CloseIsClosed(m.g, m.lo, m.hi, NOTHING, s);
    CloseTwice(m, flag, s);
    RoundedBasics(m.g, m.lo, m.hi, m.large, flag, n, Rounds(m.g, flag));
    FlagIsLine(m.g, m.x, p);
    if m.Exact() {
      EnoughForAll(m.large, m.g, m.lo, m.hi, flag, n);
      RoundsEndIff(m.g, m.lo, m.hi, m.large, flag, n, Rounds(m.g, flag));
    }
  }

  /** Closing under the empty moves first changes nothing. */
  lemma CloseTwice(m: Segment, flag: Code, s: set<int>)
    requires m.Valid() && Inside(m.lo, m.hi, s)
    ensures var n := Close(m.g, m.lo, m.hi, NOTHING, s);
            && s <= n && Inside(m.lo, m.hi, n) && Closed(m.g, m.lo, m.hi, NOTHING, n)
            && Close(m.g, m.lo, m.hi, flag, n) == Close(m.g, m.lo, m.hi, flag, s)
  {
    hide Scannable, Close;
    LoInside(m);
    var n, c := Close(m.g, m.lo, m.hi, NOTHING, s), Close(m.g, m.lo, m.hi, flag, s);
    CloseIsClosed(m.g, m.lo, m.hi, NOTHING, s);
    CloseIsClosed(m.g, m.lo, m.hi, flag, s);
    ClosedForNothing(m.g, m.lo, m.hi, flag, c);
    CloseIsLeast(m.g, m.lo, m.hi, NOTHING, s, c);
    CloseMonotone(m.g, m.lo, m.hi, flag, s, n);
    CloseIsLeast(m.g, m.lo, m.hi, flag, n, c);
  }

  lemma LiveBasics(m: Segment, from: int, p: int)
    requires m.Valid()
    ensures Inside(m.lo, m.hi, m.Live(from, p))
    ensures m.Exact() ==> Closed(m.g, m.lo, m.hi, FlagAt(m.g, m.x, p), m.Live(from, p))
    ensures p == from ==> m.lo in m.Live(from, p)
    ensures p > from ==> m.Took(p - 1, m.Live(from, p - 1)) <= m.Live(from, p)
  {
    if p >= from {
      hide Scannable, Close, Closed, Segment.CrossAt;
      LoInside(m);
      var s := if p == from then {m.lo} else m.Took(p - 1, m.Live(from, p - 1));
      if p > from { TookInside(m, p - 1, m.Live(from, p - 1)); }
      CrossAtBasics(m, p, s);
      CloseIsClosed(m.g, m.lo, m.hi, FlagAt(m.g, m.x, p), s);
    } else { ClosedNothing(m, p); }
  }

  lemma ClosedNothing(m: Segment, p: int)
    requires m.Valid()
    ensures Closed(m.g, m.lo, m.hi, FlagAt(m.g, m.x, p), {})
  {
  }

  // ----- acceptance -----

  /** At q and p, whatever is still needed to match `re` completes a match begun at `from`. */
  ghost predicate Honest(m: Segment, re: Re, from: int, p: int, q: int) {
    forall e | Rest(m.g, m.x, re, q - m.lo, p, e) :: Matches(m.g, m.x, re, from, e)
  }

  lemma HonestEdge(m: Segment, re: Re, from: int, p: int, q: int, p': int, q': int)
    requires m.Codes(re) && m.lo <= q < m.hi && Honest(m, re, from, p, q)
    requires Edge(m.g, m.x, q, p, q', p')
    ensures m.lo <= q' <= m.hi && Honest(m, re, from, p', q')
  {
    HoldsScan(m.g, m.lo, re, q);
    forall e | Rest(m.g, m.x, re, q' - m.lo, p', e) ensures Matches(m.g, m.x, re, from, e) {
      ReEdge(m.g, m.x, m.lo, re, q, p, q', p', e);
    }
  }

  lemma HonestClose(m: Segment, re: Re, from: int, p: int, s: set<int>)
    requires m.Codes(re) && m.Valid()
    requires forall q | q in s :: m.lo <= q <= m.hi && Honest(m, re, from, p, q)
    ensures forall q | q in m.CrossAt(p, s) :: Honest(m, re, from, p, q)
  {
    CrossAtBasics(m, p, s);
    var c := set q | m.lo <= q <= m.hi && Honest(m, re, from, p, q);
    var ch := FlagAt(m.g, m.x, p);
    forall q | q in c && m.lo <= q < m.hi ensures ClosedAt(m.g, ch, c, q) {
      if Consumes(m.g, m.g.strip[q], ch) { HonestEdge(m, re, from, p, q, p, q + 1); }
      forall q' | EmptyEdge(m.g, q, q') ensures q' in c { HonestEdge(m, re, from, p, q, p, q'); }
    }
    CloseIsLeast(m.g, m.lo, m.hi, ch, s, c);
  }

  lemma {:induction false} LiveHonest(m: Segment, re: Re, from: int, p: int)
    requires m.Codes(re) && m.Valid()
    ensures forall q | q in m.Live(from, p) :: Honest(m, re, from, p, q)
    decreases p - from
  {
    if p == from {
      assert Honest(m, re, from, p, m.lo) by {
        forall e | Rest(m.g, m.x, re, 0, p, e) ensures Matches(m.g, m.x, re, from, e) {
          RestAtStart(m.g, m.x, re, p, e);
        }
      }
      HonestClose(m, re, from, p, {m.lo});
    } else if p > from {
      var s := m.Live(from, p - 1);
      LiveHonest(m, re, from, p - 1);
      forall q | q in m.Took(p - 1, s) ensures m.lo <= q <= m.hi && Honest(m, re, from, p, q) {
        HonestEdge(m, re, from, p - 1, q - 1, p, q);
      }
      HonestClose(m, re, from, p, m.Took(p - 1, s));
    }
  }

  ghost function LiveFamily(m: Segment, from: int, upto: int): Family
    requires m.Valid()
  {
    Family(m.g, m.x, m.lo, m.hi, from, upto, p => if m.Valid() then m.Live(from, p) else {})
  }

  lemma LiveCarries(m: Segment, from: int, upto: int)
    requires m.Valid() && m.Exact()
    ensures LiveFamily(m, from, upto).Carries()
  {
    var f := LiveFamily(m, from, upto);
    forall p | from <= p <= upto ensures Closed(m.g, m.lo, m.hi, FlagAt(m.g, m.x, p), f.live(p)) {
      LiveBasics(m, from, p);
    }
    forall p | from <= p < upto && CharAt(m.x, p)
      ensures Shift(m.g, m.lo, m.hi, Char(m.x.text[p]), f.live(p)) <= f.live(p + 1)
    {
      LiveBasics(m, from, p + 1);
    }
  }

  /** The run from i is at the end of the segment at p. */
  ghost predicate Accepts(m: Segment, i: int, p: int) {
    m.Valid() && m.hi in m.Live(i, p)
  }

  /** The automaton started at `from` is at the end of the segment, at p, only when the segment's tree
      matches from `from` to p; and whenever it does, if the rounds suffice. */
  lemma AcceptsLanguage(m: Segment, re: Re, from: int, p: int)
    requires m.Codes(re) && m.Valid() && m.x.begin <= from <= m.x.end
    ensures Accepts(m, from, p) ==> Matches(m.g, m.x, re, from, p)
    ensures m.Exact() ==> (Accepts(m, from, p) <==> Matches(m.g, m.x, re, from, p))
  {
    hide Scannable, Close, Shift, Family.Carries, EnoughRounds, Segment.CrossAt;
    if m.hi in m.Live(from, p) {
      LiveHonest(m, re, from, p);
      RestAtEnd(m.g, m.x, re, p, p);
    }
    if Matches(m.g, m.x, re, from, p) && m.Exact() {
      MatchBounds(m.g, m.x, re, from, p);
      LiveCarries(m, from, p);
      LiveBasics(m, from, from);
      Flow(LiveFamily(m, from, p), m.lo, re, from, p);
    }
  }

  // ----- the sweep is the union of the runs -----

  lemma CrossAtUnion(m: Segment, p: int, s: set<int>, t: set<int>)
    requires m.Valid() && Inside(m.lo, m.hi, s) && Inside(m.lo, m.hi, t)
    ensures m.CrossAt(p, s + t) == m.CrossAt(p, s) + m.CrossAt(p, t)
  {
    hide Scannable, Close, Closed, Rounded;
    LoInside(m);
    var a, b := Close(m.g, m.lo, m.hi, NOTHING, s), Close(m.g, m.lo, m.hi, NOTHING, t);
    CloseUnion(m.g, m.lo, m.hi, NOTHING, s, t);
    CloseIsClosed(m.g, m.lo, m.hi, NOTHING, s);
    CloseIsClosed(m.g, m.lo, m.hi, NOTHING, t);
    var flag := FlagAt(m.g, m.x, p);
    RoundedUnion(m.g, m.lo, m.hi, m.large, flag, a, b, Rounds(m.g, flag));
  }

  lemma TookUnion(m: Segment, p: int, s: set<int>, t: set<int>)
    requires m.Valid()
    ensures m.Took(p, s + t) == m.Took(p, s) + m.Took(p, t)
  {
  }

  lemma LoInside(m: Segment)
    requires m.Valid()
    ensures 1 <= m.lo <= m.hi < |m.g.strip|
  {
  }

  lemma TookNothing(m: Segment, p: int)
    requires m.Valid()
    ensures m.Took(p, {}) == {}
  {
  }

  lemma {:induction false} SweepPeels(m: Segment, from: int, p: int)
    requires m.Valid() && from <= p
    ensures m.Sweep(from, p) == m.Live(from, p) + m.Sweep(from + 1, p)
    decreases p - from
  {
    hide Scannable, Close, Shift;
    var none := m.Took(p - 1, {});
    TookNothing(m, p - 1);
    if from == p {
      assert m.Sweep(p + 1, p) == {};
      assert {m.lo} + none == {m.lo};
    } else {
      LoInside(m);
      SweepPeels(m, from, p - 1);
      var a, b := m.Live(from, p - 1), m.Sweep(from + 1, p - 1);
      TookUnion(m, p - 1, a, b);
      TookInside(m, p - 1, a);
      TookInside(m, p - 1, b);
      assert Inside(m.lo, m.hi, {m.lo} + m.Took(p - 1, b));
      CrossAtUnion(m, p, m.Took(p - 1, a), {m.lo} + m.Took(p - 1, b));
      assert {m.lo} + m.Took(p - 1, a + b) == m.Took(p - 1, a) + ({m.lo} + m.Took(p - 1, b));
    }
  }

  /** What the scan holds at p is what the runs begun at every earlier start, together, hold. */
  lemma {:induction false} SweepIsUnion(m: Segment, from: int, p: int, q: int)
    requires m.Valid()
    ensures q in m.Sweep(from, p) <==> SomeRunAt(m, from, p, q)
    decreases p - from
  {
    if from <= p {
      SweepPeels(m, from, p);
      SweepIsUnion(m, from + 1, p, q);
      if q in m.Live(from, p) {
        assert RunAt(m, from, p, q);
      } else if SomeRunAt(m, from, p, q) {
        var i :| from <= i <= p && RunAt(m, i, p, q);
        assert i != from;
      }
    }
  }

  ghost predicate RunAt(m: Segment, i: int, p: int, q: int)
    requires m.Valid()
  {
    q in m.Live(i, p)
  }

  ghost predicate SomeRunAt(m: Segment, from: int, p: int, q: int)
    requires m.Valid()
  {
    exists i :: from <= i <= p && RunAt(m, i, p, q)
  }

  /** Some run that begins at `from` or later is at the end of the segment at `e`. */
  ghost predicate SomeEnds(m: Segment, from: int, e: int) {
    exists i :: from <= i <= e && Accepts(m, i, e)
  }

  /** The scan begun at `from` is at the end of the segment, at p, exactly when some run that begins at
      `from` or later is. */
  lemma SweepAccepts(m: Segment, from: int, p: int)
    requires m.Valid()
    ensures m.hi in m.Sweep(from, p) <==> SomeEnds(m, from, p)
  {
    hide Scannable;
    SweepIsUnion(m, from, p, m.hi);
    if m.hi in m.Sweep(from, p) {
      var i :| from <= i <= p && RunAt(m, i, p, m.hi);
      assert Accepts(m, i, p);
    }
    if SomeEnds(m, from, p) {
      var i :| from <= i <= p && Accepts(m, i, p);
      assert RunAt(m, i, p, m.hi);
    }
  }

  /** Some match begins at `from` or later and ends at `e`. */
  ghost predicate SomeMatchEnds(g: Guts, x: Subject, re: Re, from: int, e: int) {
    exists i :: from <= i <= e && Matches(g, x, re, i, e)
  }

  /** Then a match does, and exactly then if the rounds suffice. */
  lemma EndsAreMatches(m: Segment, re: Re, from: int, e: int)
    requires m.Codes(re) && m.Valid() && m.x.begin <= from <= e <= m.x.end
    ensures SomeEnds(m, from, e) ==> SomeMatchEnds(m.g, m.x, re, from, e)
    ensures m.Exact() ==> (SomeEnds(m, from, e) <==> SomeMatchEnds(m.g, m.x, re, from, e))
  {
    hide Scannable, Accepts, Matches, EnoughRounds;
    if SomeEnds(m, from, e) {
      var i :| from <= i <= e && Accepts(m, i, e);
      AcceptsLanguage(m, re, i, e);
    }
    if SomeMatchEnds(m.g, m.x, re, from, e) && m.Exact() {
      var i :| from <= i <= e && Matches(m.g, m.x, re, i, e);
      AcceptsLanguage(m, re, i, e);
    }
  }
}
