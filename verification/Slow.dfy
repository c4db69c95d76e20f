/** slow(): the longest match of a segment from one starting point. */
module SlowScan {
  import opened Strip
  import opened Regex
  import opened Running
  import opened StateVectors
  import opened Boundary
  import opened Options
  import opened Scanning

  /** The greatest end, no later than `limit`, of a match of `re` from i. */
  ghost function LongestMatch(g: Guts, x: Subject, re: Re, i: int, limit: int): Option<int>
    decreases limit - i
  {
    if limit < i then None
    else if Matches(g, x, re, i, limit) then Some(limit)
    else LongestMatch(g, x, re, i, limit - 1)
  }

  lemma {:induction false} LongestMatchIsGreatest(g: Guts, x: Subject, re: Re, i: int, limit: int)
    ensures var r := LongestMatch(g, x, re, i, limit);
            && (r.Some? ==> i <= r.value <= limit && Matches(g, x, re, i, r.value))
            && (forall e | i <= e <= limit && Matches(g, x, re, i, e) :: r.Some? && e <= r.value)
    decreases limit - i
  {
    if limit >= i && !Matches(g, x, re, i, limit) { LongestMatchIsGreatest(g, x, re, i, limit - 1); }
  }

  /** The last place, no later than `limit`, where the run from i is at the end of the segment. */
  ghost function Longest(m: Segment, i: int, limit: int): Option<int>
    decreases limit - i
  {
    if limit < i then None
    else if Accepts(m, i, limit) then Some(limit)
    else Longest(m, i, limit - 1)
  }

  lemma {:induction false} LongestIsGreatest(m: Segment, i: int, limit: int)
    ensures var r := Longest(m, i, limit);
            && (r.Some? ==> i <= r.value <= limit && Accepts(m, i, r.value))
            && (forall e | i <= e <= limit && Accepts(m, i, e) :: r.Some? && e <= r.value)
    decreases limit - i
  {
    hide Accepts;
    if limit >= i && !Accepts(m, i, limit) { LongestIsGreatest(m, i, limit - 1); }
  }

  /** It is the end of a match, and of the longest one if the rounds suffice. */
  lemma {:induction false} LongestIsAMatch(m: Segment, re: Re, i: int, limit: int)
    requires m.Codes(re) && m.Valid() && m.x.begin <= i <= m.x.end
    ensures var r := Longest(m, i, limit); r.Some? ==> i <= r.value <= limit && Matches(m.g, m.x, re, i, r.value)
    ensures m.Exact() ==> Longest(m, i, limit) == LongestMatch(m.g, m.x, re, i, limit)
    decreases limit - i
  {
    hide Scannable, Accepts, Matches, EnoughRounds;
    if limit >= i {
      AcceptsLanguage(m, re, i, limit);
      LongestIsAMatch(m, re, i, limit - 1);
    }
  }

  /** No run is at the end in (from, limit]. */
  lemma {:induction false} LongestStops(m: Segment, i: int, from: int, limit: int)
    requires from <= limit && forall e | from < e <= limit :: !Accepts(m, i, e)
    ensures Longest(m, i, limit) == Longest(m, i, from)
    decreases limit - from
  {
    hide Accepts;
    if from < limit { LongestStops(m, i, from, limit - 1); }
  }

  /** The states at p before its boundaries are crossed. */
  ghost function Arriving(m: Segment, from: int, p: int): set<int>
    requires m.Valid()
  {
    Close(m.g, m.lo, m.hi, NOTHING, if p == from then {m.lo} else m.Took(p - 1, m.Live(from, p - 1)))
  }

  /** Crossing begins with the empty moves. */
  lemma CrossTwice(m: Segment, p: int, s: set<int>)
    requires m.Valid() && Inside(m.lo, m.hi, s)
    ensures var n := Close(m.g, m.lo, m.hi, NOTHING, s);
            && s <= n && Inside(m.lo, m.hi, n) && Closed(m.g, m.lo, m.hi, NOTHING, n)
            && m.CrossAt(p, n) == m.CrossAt(p, s)
  {
    hide Scannable, Close, Closed, Rounded;
    CloseTwice(m, NOTHING, s);
  }

  lemma ArrivingThenLive(m: Segment, from: int, p: int)
    requires m.Valid() && from <= p
    ensures Inside(m.lo, m.hi, Arriving(m, from, p)) && Closed(m.g, m.lo, m.hi, NOTHING, Arriving(m, from, p))
    ensures m.CrossAt(p, Arriving(m, from, p)) == m.Live(from, p)
  {
    CrossTwice(m, p, if p == from then {m.lo} else m.Took(p - 1, m.Live(from, p - 1)));
  }

  lemma ArrivingNext(m: Segment, from: int, p: int)
    requires m.Valid() && from <= p
    ensures Arriving(m, from, p + 1) == Close(m.g, m.lo, m.hi, NOTHING, {} + m.Took(p, m.Live(from, p)))
  {
    assert {} + m.Took(p, m.Live(from, p)) == m.Took(p, m.Live(from, p));
  }

  /** Once no run is alive, none ever is again. */
  lemma {:induction false} DeadStaysDead(m: Segment, from: int, p: int, q: int)
    requires m.Valid() && from <= p <= q && m.Live(from, p) == {}
    ensures m.Live(from, q) == {}
    decreases q - p
  {
    hide Scannable, Close;
    if p < q {
      DeadStaysDead(m, from, p, q - 1);
      NothingFromNothing(m, q);
    }
  }

  lemma NothingFromNothing(m: Segment, q: int)
    requires m.Valid()
    ensures m.CrossAt(q, m.Took(q - 1, {})) == {}
  {
    assert m.Took(q - 1, {}) == {};
    CrossAtBasics(m, q, {});
    CloseIsLeast(m.g, m.lo, m.hi, FlagAt(m.g, m.x, q), {}, {});
  }

  lemma DeadNeverAccepts(m: Segment, from: int, p: int, limit: int)
    requires m.Valid() && from <= p <= limit && m.Live(from, p) == {}
    ensures Longest(m, from, limit) == Longest(m, from, p)
  {
    hide Scannable;
    forall e | p < e <= limit ensures !Accepts(m, from, e) { DeadStaysDead(m, from, p, e); }
    LongestStops(m, from, p, limit);
  }

  /** Take the character at p, beside what `fill` holds. */
  method TakeChar(m: Match, startst: nat, stopst: nat, c: char, fill: States, ghost p: int)
    requires m.Valid() && m.x.begin <= p < m.x.end && c == m.x.text[p]
    requires Scannable(m.g, startst, stopst)
    requires (fill == m.empty || fill == m.start) && Inside(startst, stopst, fill.Elems())
    modifies m.st, m.st.bytes, m.tmp, m.tmp.bytes
    ensures m.Valid()
    ensures m.st.Elems() ==
            Close(m.g, startst, stopst, NOTHING, fill.Elems() + m.Seg(startst, stopst).Took(p, old(m.st.Elems())))
  {
    m.tmp.Assign(m.st);
    m.st.Assign(fill);
    CallStep(m.g, startst, stopst, m.tmp, Char(c), m.st);
  }

  /** Put the segment's first state, and what its empty moves lead to, into `st`. */
  method Enter(m: Match, startst: nat, stopst: nat)
    requires m.Valid() && Scannable(m.g, startst, stopst)
    modifies m.st, m.st.bytes
    ensures m.Valid()
    ensures m.st.Elems() == Close(m.g, startst, stopst, NOTHING, {startst})
  {
    m.st.Clear();
    m.st.Set1(startst);
    assert m.st.Elems() == {startst};
    assert Shift(m.g, startst, stopst, NOTHING, {startst}) == {};
    assert {startst} + {} == {startst};
    CallStep(m.g, startst, stopst, m.st, NOTHING, m.st);
  }

  /** What slow() does at one text position before it takes the character there. */
  method SlowAt(m: Match, startst: nat, stopst: nat, lastc: CharOrOut, c: CharOrOut, ghost start: int, ghost p: int, ghost re: Re)
    returns (found: bool, dead: bool)
    requires m.Valid() && m.Seg(startst, stopst).Codes(re) && m.Seg(startst, stopst).Valid()
    requires m.x.begin <= start <= p <= m.x.end
    requires lastc == CharBefore(m.x, p) && c == CharAfter(m.x, p)
    requires m.st.Elems() == Arriving(m.Seg(startst, stopst), start, p)
    modifies m.st, m.st.bytes
    ensures m.Valid()
    ensures m.st.Elems() == m.Seg(startst, stopst).Live(start, p)
    ensures found <==> Accepts(m.Seg(startst, stopst), start, p)
    ensures dead <==> m.Seg(startst, stopst).Live(start, p) == {}
  {
    ghost var seg := m.Seg(startst, stopst);
    ArrivingThenLive(seg, start, p);
    CrossBoundaries(m, startst, stopst, lastc, c, p, re);
    found := m.st.IsSet(stopst);
    dead := m.st.Eq(m.empty);
  }

  method Slow(m: Match, start: int, stop: int, startst: nat, stopst: nat, ghost re: Re) returns (matchp: Option<int>)
    requires m.Valid() && m.Seg(startst, stopst).Codes(re)
    requires m.x.begin <= start <= stop <= m.x.end
    modifies m.st, m.st.bytes, m.tmp, m.tmp.bytes
    ensures m.Valid()
    ensures matchp == Longest(m.Seg(startst, stopst), start, stop)
    ensures m.Exact() ==> matchp == LongestMatch(m.g, m.x, re, start, stop)
  {
    hide Scannable, Close, EnoughRounds;
    ghost var seg := m.Seg(startst, stopst);
    CodesValid(seg, re);
    LongestIsAMatch(seg, re, start, stop);
    var p := start;
    var c := CharBefore(m.x, start);
    Enter(m, startst, stopst);
    matchp := None;
    while true
      invariant m.Valid() && start <= p <= stop && c == CharBefore(m.x, p)
      invariant m.st.Elems() == Arriving(seg, start, p)
      invariant matchp == Longest(seg, start, p - 1)
      decreases stop - p
    {
      var lastc := c;
      c := CharAfter(m.x, p);
      var found, dead := SlowAt(m, startst, stopst, lastc, c, start, p, re);

      if found { matchp := Some(p); }
      if dead || p == stop {
        if dead { DeadNeverAccepts(seg, start, p, stop); }
        break;
      }

      ArrivingNext(seg, start, p);
      TakeChar(m, startst, stopst, c.c, m.empty, p);
      p := p + 1;
    }
  }
}
