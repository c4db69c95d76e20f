/** Where the match that is reported begins.  fast() leaves in `coldp` the last place at
    which its states were those of a fresh start; the search for the start begins there. */
module Leftmost {
  import opened Strip
  import opened Running
  import opened Options
  import opened SlowScan
  import opened FastScan

  /** The first place in [i, stop] from which a run is at the end no later than `stop`. */
  ghost function FirstStart(m: Segment, i: int, stop: int): Option<int>
    decreases stop - i
  {
    if i > stop then None
    else if Longest(m, i, stop).Some? then Some(i)
    else FirstStart(m, i + 1, stop)
  }

  lemma {:induction false} FirstStartIsFirst(m: Segment, i: int, stop: int)
    ensures var r := FirstStart(m, i, stop);
            && (r.Some? ==> i <= r.value <= stop && Longest(m, r.value, stop).Some?)
            && (forall k, e | i <= k <= e <= stop && Accepts(m, k, e) :: r.Some? && r.value <= k)
    decreases stop - i
  {
    hide Accepts, Longest;
    if i <= stop {
      LongestIsGreatest(m, i, stop);
      FirstStartIsFirst(m, i + 1, stop);
    }
  }

  /** From a cold place on, the scan holds what a scan begun there would hold. */
  lemma {:induction false} ColdRestarts(m: Segment, from: int, c: int, p: int)
    requires m.Valid() && from <= c <= p && Cold(m, from, c)
    ensures m.Sweep(from, p) == m.Sweep(c, p)
    decreases p - c
  {
    hide Scannable, Close;
    if p == c {
      FirstIsCold(m, c);
      IncomingThenSweep(m, from, c);
      IncomingThenSweep(m, c, c);
    } else {
      ColdRestarts(m, from, c, p - 1);
    }
  }

  /** A run that begins no earlier than `coldp` is at the end at `e`: the search for the start, from
      `coldp` on, cannot run off the end of the text. */
  lemma ColdKeepsAMatch(m: Segment, from: int, e: int)
    requires m.Valid() && from <= e && SomeEnds(m, from, e)
    ensures SomeEnds(m, LastCold(m, from, e), e)
  {
    hide Scannable, Close, Cold, SomeEnds;
    var c := LastCold(m, from, e);
    LastColdIsLast(m, from, e);
    ColdRestarts(m, from, c, e);
    SweepAccepts(m, from, e);
    SweepAccepts(m, c, e);
  }

  /** The start that is reported is the leftmost one from which a run comes to the end exactly when the
      test EQ(st, fresh) never succeeds between that start and the first end. */
  lemma LeftmostIff(m: Segment, start: int, stop: int)
    requires m.Valid() && start <= stop && FirstEnd(m, start, start, stop).Some?
    ensures var e := FirstEnd(m, start, start, stop).value;
            var first := FirstStart(m, start, stop);
            && first.Some? && first.value <= e
            && (FirstStart(m, LastCold(m, start, e), stop) == first <==>
                forall p | first.value < p <= e :: !Cold(m, start, p))
  {
    hide Scannable, Close, Cold, Accepts;
    var e := FirstEnd(m, start, start, stop).value;
    FirstEndIsFirst(m, start, start, stop);
    FirstStartIsFirst(m, start, stop);
    var k :| start <= k <= e && Accepts(m, k, e);
    var first := FirstStart(m, start, stop).value;
    var c := LastCold(m, start, e);
    LastColdIsLast(m, start, e);
    FirstStartIsFirst(m, c, stop);
    if c <= first {
      LongestIsGreatest(m, first, stop);
      LongestIsGreatest(m, FirstStart(m, c, stop).value, stop);
    }
  }

  // ----- a condition on the expression alone -----

  /** No operator that takes a character leads to a state that a fresh start holds anyway. */
  ghost predicate Unmasked(m: Segment)
    requires m.Valid()
  {
    forall p | m.lo <= p < m.hi && TakesChars(m.g.strip[p]) :: p + 1 !in FreshStates(m)
  }

  predicate TakesChars(op: Op) {
    op.OCHAR? || op.OANY? || op.OANYOF?
  }

  /** If a run begun before p is alive at p, p is not cold. */
  lemma UnderwayIsNotCold(m: Segment, from: int, i: int, p: int)
    requires m.Valid() && Unmasked(m) && from <= i < p && m.Live(i, p) != {}
    ensures !Cold(m, from, p)
  {
    hide Close;
    AliveTook(m, i, p);
    var q :| q in m.Took(p - 1, m.Live(i, p - 1));
    SweepHoldsRuns(m, from, i, p - 1);
    TookIsComing(m, from, p, q);
    assert TakesChars(m.g.strip[q - 1]);
  }

  lemma AliveTook(m: Segment, i: int, p: int)
    requires m.Valid() && i < p && m.Live(i, p) != {}
    ensures m.Took(p - 1, m.Live(i, p - 1)) != {}
  {
    hide Close, Scannable;
    if m.Took(p - 1, m.Live(i, p - 1)) == {} {
      TookNothing(m, p - 1);
      NothingFromNothing(m, p);
    }
  }

  lemma TookIsComing(m: Segment, from: int, p: int, q: int)
    requires m.Valid() && q in m.Took(p - 1, m.Sweep(from, p - 1))
    ensures q in Incoming(m, from, p)
  {
    hide Close;
    TookInside(m, p - 1, m.Sweep(from, p - 1));
    CloseIsClosed(m.g, m.lo, m.hi, NOTHING, {m.lo} + m.Took(p - 1, m.Sweep(from, p - 1)));
  }

  lemma SweepHoldsRuns(m: Segment, from: int, i: int, p: int)
    requires m.Valid() && from <= i <= p
    ensures m.Live(i, p) <= m.Sweep(from, p)
  {
    hide Scannable, Close;
    forall q | q in m.Live(i, p) ensures q in m.Sweep(from, p) {
      SweepIsUnion(m, from, p, q);
      assert RunAt(m, i, p, q);
    }
  }

  /** Under that condition the reported start is the leftmost one, whatever the text. */
  lemma UnmaskedIsLeftmost(m: Segment, start: int, stop: int)
    requires m.Valid() && start <= stop && Unmasked(m) && FirstEnd(m, start, start, stop).Some?
    ensures var e := FirstEnd(m, start, start, stop).value;
            FirstStart(m, LastCold(m, start, e), stop) == FirstStart(m, start, stop)
  {
    hide Scannable, Close, Cold, Unmasked, Longest;
    LeftmostIff(m, start, stop);
    FirstEndIsFirst(m, start, start, stop);
    var e := FirstEnd(m, start, start, stop).value;
    FirstStartIsFirst(m, start, stop);
    var i := FirstStart(m, start, stop).value;
    LongestIsGreatest(m, i, stop);
    var j := Longest(m, i, stop).value;
    assert SomeEnds(m, start, j);
    forall p | i < p <= e ensures !Cold(m, start, p) {
      if m.Live(i, p) == {} {
        DeadStaysDead(m, i, p, j);
        assert false;
      }
      UnderwayIsNotCold(m, start, i, p);
    }
  }
}
