/** fast(): is there a match at all?  And what its by-product `coldp` is worth. */
module FastScan {
  import opened Strip
  import opened Regex
  import opened Running
  import opened Options
  import opened Scanning
  import opened SlowScan

  /** The first place in [p, stop] where a run that began at `from` or later is at the end. */
  ghost function FirstEnd(m: Segment, from: int, p: int, stop: int): Option<int>
    decreases stop - p
  {
    if p > stop then None
    else if SomeEnds(m, from, p) then Some(p)
    else FirstEnd(m, from, p + 1, stop)
  }

  lemma {:induction false} FirstEndIsFirst(m: Segment, from: int, p: int, stop: int)
    ensures var r := FirstEnd(m, from, p, stop);
            && (r.Some? ==> p <= r.value <= stop && SomeEnds(m, from, r.value))
            && (forall e | p <= e <= stop && SomeEnds(m, from, e) :: r.Some? && r.value <= e)
    decreases stop - p
  {
    hide SomeEnds;
    if p <= stop && !SomeEnds(m, from, p) { FirstEndIsFirst(m, from, p + 1, stop); }
  }

  /** What a start at any place holds before boundaries are crossed. */
  ghost function FreshStates(m: Segment): set<int>
    requires m.Valid()
  {
    Close(m.g, m.lo, m.hi, NOTHING, {m.lo})
  }

  /** What the scan begun at `from` holds at p, before the boundaries there are crossed. */
  ghost function Incoming(m: Segment, from: int, p: int): set<int>
    requires m.Valid()
  {
    Close(m.g, m.lo, m.hi, NOTHING, {m.lo} + m.Took(p - 1, m.Sweep(from, p - 1)))
  }

  /** EQ(st, fresh): the scan holds at p nothing but what a fresh start holds. */
  ghost predicate Cold(m: Segment, from: int, p: int)
    requires m.Valid()
  {
    Incoming(m, from, p) == FreshStates(m)
  }

  /** The last cold place at or before p. */
  ghost function LastCold(m: Segment, from: int, p: int): int
    requires m.Valid()
    decreases p - from
  {
    if p <= from then from else if Cold(m, from, p) then p else LastCold(m, from, p - 1)
  }

  lemma FirstIsCold(m: Segment, from: int)
    requires m.Valid()
    ensures Cold(m, from, from)
  {
    TookNothing(m, from - 1);
    assert {m.lo} + {} == {m.lo};
  }

  lemma {:induction false} LastColdIsLast(m: Segment, from: int, p: int)
    requires m.Valid() && from <= p
    ensures var c := LastCold(m, from, p);
            from <= c <= p && Cold(m, from, c) && forall q | c < q <= p :: !Cold(m, from, q)
    decreases p - from
  {
    hide Cold, Scannable;
    if p == from { FirstIsCold(m, from); }
    else if !Cold(m, from, p) { LastColdIsLast(m, from, p - 1); }
  }

  lemma IncomingThenSweep(m: Segment, from: int, p: int)
    requires m.Valid() && from <= p
    ensures Inside(m.lo, m.hi, Incoming(m, from, p)) && Closed(m.g, m.lo, m.hi, NOTHING, Incoming(m, from, p))
    ensures m.CrossAt(p, Incoming(m, from, p)) == m.Sweep(from, p)
  {
    TookInside(m, p - 1, m.Sweep(from, p - 1));
    CrossTwice(m, p, {m.lo} + m.Took(p - 1, m.Sweep(from, p - 1)));
  }

  /** A fresh start joins what the character at p makes of the scan. */
  lemma IncomingNext(m: Segment, from: int, p: int)
    requires m.Valid() && from <= p
    ensures Incoming(m, from, p + 1) ==
            Close(m.g, m.lo, m.hi, NOTHING, FreshStates(m) + m.Took(p, m.Sweep(from, p)))
    ensures Inside(m.lo, m.hi, FreshStates(m))
  {
    var t := m.Took(p, m.Sweep(from, p));
    TookInside(m, p, m.Sweep(from, p));
    CloseIsClosed(m.g, m.lo, m.hi, NOTHING, {m.lo});
    CloseIsClosed(m.g, m.lo, m.hi, NOTHING, FreshStates(m));
    CloseUnique(m.g, m.lo, m.hi, NOTHING, FreshStates(m), FreshStates(m));
    CloseUnion(m.g, m.lo, m.hi, NOTHING, {m.lo}, t);
    CloseUnion(m.g, m.lo, m.hi, NOTHING, FreshStates(m), t);
  }

  /** Before the scan. */
  method FastEnter(m: Match, startst: nat, stopst: nat, ghost start: int)
    requires m.Valid() && m.Seg(startst, stopst).Valid()
    modifies m.st, m.st.bytes, m.start, m.start.bytes
    ensures m.Valid()
    ensures m.start.Elems() == FreshStates(m.Seg(startst, stopst))
    ensures m.st.Elems() == Incoming(m.Seg(startst, stopst), start, start)
  {
    FirstIsCold(m.Seg(startst, stopst), start);
    Enter(m, startst, stopst);
    m.start.Assign(m.st);
  }

  /** Take the character at p; a new run begins behind it. */
  method FastTake(m: Match, startst: nat, stopst: nat, c: char, ghost start: int, ghost p: int)
    requires m.Valid() && m.Seg(startst, stopst).Valid()
    requires m.x.begin <= start <= p < m.x.end && c == m.x.text[p]
    requires m.start.Elems() == FreshStates(m.Seg(startst, stopst))
    requires m.st.Elems() == m.Seg(startst, stopst).Sweep(start, p)
    modifies m.st, m.st.bytes, m.tmp, m.tmp.bytes
    ensures m.Valid() && m.start.Elems() == old(m.start.Elems())
    ensures m.st.Elems() == Incoming(m.Seg(startst, stopst), start, p + 1)
  {
    IncomingNext(m.Seg(startst, stopst), start, p);
    TakeChar(m, startst, stopst, c, m.start, p);
  }

  /** What fast() does at one text position before it takes the character there. */
  method FastAt(m: Match, startst: nat, stopst: nat, lastc: CharOrOut, c: CharOrOut, ghost start: int, ghost p: int, ghost re: Re)
    returns (cold: bool, found: bool)
    requires m.Valid() && m.Seg(startst, stopst).Codes(re) && m.Seg(startst, stopst).Valid()
    requires m.x.begin <= start <= p <= m.x.end
    requires lastc == CharBefore(m.x, p) && c == CharAfter(m.x, p)
    requires m.st.Elems() == Incoming(m.Seg(startst, stopst), start, p)
    requires m.start.Elems() == FreshStates(m.Seg(startst, stopst))
    modifies m.st, m.st.bytes
    ensures m.Valid() && m.start.Elems() == old(m.start.Elems())
    ensures m.st.Elems() == m.Seg(startst, stopst).Sweep(start, p)
    ensures cold <==> Cold(m.Seg(startst, stopst), start, p)
    ensures found <==> SomeEnds(m.Seg(startst, stopst), start, p)
  {
    ghost var seg := m.Seg(startst, stopst);
    cold := m.st.Eq(m.start);
    IncomingThenSweep(seg, start, p);
    CrossBoundaries(m, startst, stopst, lastc, c, p, re);
    SweepAccepts(seg, start, p);
    found := m.st.IsSet(stopst);
  }

  method Fast(m: Match, start: int, stop: int, startst: nat, stopst: nat, ghost re: Re) returns (r: Option<int>)
    requires m.Valid() && m.Seg(startst, stopst).Codes(re)
    requires m.x.begin <= start <= stop <= m.x.end
    modifies m, m.st, m.st.bytes, m.tmp, m.tmp.bytes, m.start, m.start.bytes
    ensures m.Valid() && m.Seg(startst, stopst).Valid()
    ensures var e := FirstEnd(m.Seg(startst, stopst), start, start, stop);
            && r == (if e.Some? then Some(e.value + 1) else None)
            && m.coldp == LastCold(m.Seg(startst, stopst), start, if e.Some? then e.value else stop)
  {
    hide Scannable, Close, Cold, Incoming, FreshStates, SomeEnds, Segment.Sweep, Segment.CrossAt, Holds;
    ghost var seg := m.Seg(startst, stopst);
    CodesValid(seg, re);
    var p := start;
    var c := CharBefore(m.x, start);
    FastEnter(m, startst, stopst, start);
    var coldp := start;
    var found := false;
    while true
      invariant m.Valid() && start <= p <= stop && c == CharBefore(m.x, p)
      invariant m.start.Elems() == FreshStates(seg) && m.st.Elems() == Incoming(seg, start, p)
      invariant coldp == LastCold(seg, start, p - 1)
      invariant FirstEnd(seg, start, start, stop) == FirstEnd(seg, start, p, stop)
      decreases stop - p
    {
      var lastc := c;
      c := CharAfter(m.x, p);
      var cold;
      cold, found := FastAt(m, startst, stopst, lastc, c, start, p, re);
      if cold { coldp := p; }

      if found || p == stop { break; }

      FastTake(m, startst, stopst, c.c, start, p);
      p := p + 1;
    }
    m.coldp := coldp;
    r := if found then Some(p + 1) else None;
  }
}
