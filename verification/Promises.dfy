/** What a caller of regexec() may rely on. */
module Promises {
  import opened Strip
  import opened Regex
  import opened Running
  import opened Options
  import opened Boundary
  import opened SlowScan
  import opened FastScan
  import opened Leftmost
  import opened Captures
  import opened Backtracking
  import opened BackRuns
  import opened Matching
  import opened BackNumbers
  import opened TreeRanks
  import opened Recurrence
  import opened FiniteCalls

  /** The expression as regcomp() compiles it, and the segment that it fills. */
  ghost predicate Whole(m: Segment, re: Re) {
    && Compiled(m.g, re) && m.x.Valid() && m.lo == m.g.firststate + 1 && m.hi == m.g.laststate
  }

  /** An expression without back references. */
  ghost predicate Plain(m: Segment, re: Re) {
    Whole(m, re) && !m.g.backrefs
  }

  lemma PlainIsValid(m: Segment, re: Re)
    requires Plain(m, re)
    ensures m.Codes(re) && m.Valid()
  {
    CodesValid(m, re);
  }

  lemma AnswerIs(m: Segment, re: Re, fuel: nat, nmatch: nat, given: seq<RegMatch>)
    requires Plain(m, re) && m.Valid() && nmatch <= |given|
    ensures var r := Once(m, re, nmatch, Blank(m.g));
            && |r.store.pm| == m.g.nsub + 1
            && Answer(m, re, fuel, nmatch, given) ==
               if r.status != Success then (r.status, given)
               else (Success, Report(m.g, nmatch, given, r.so, r.eo, r.store.pm))
  {
    hide Scannable, Compiled, Report;
  }

  lemma OnceFinds(m: Segment, re: Re, nmatch: nat)
    requires Plain(m, re) && m.Valid()
    ensures var r := Once(m, re, nmatch, Blank(m.g));
            var e := FirstEnd(m, m.x.begin, m.x.begin, m.x.end);
            && r.status == (if e.Some? then Success else REG_NOMATCH)
            && (e.Some? && nmatch >= 1 ==>
                  && Some(r.so) == FirstStart(m, LastCold(m, m.x.begin, e.value), m.x.end)
                  && Some(r.eo) == Longest(m, r.so, m.x.end))
            && (e.Some? && nmatch >= 2 ==> r.store.pm == Dissected(m.g, m.x, re, r.so, r.eo, Blank(m.g).pm))
  {
    hide Dissected, Plain, Scannable, Cold, SomeEnds;
    PlainIsValid(m, re);
    var start, stop := m.x.begin, m.x.end;
    if FirstEnd(m, start, start, stop).Some? {
      var e := FirstEnd(m, start, start, stop).value;
      StartExists(m, start, stop);
      FirstStartIsFirst(m, LastCold(m, start, e), stop);
    }
  }

  /** Success is reported only when some part of the text matches; and whenever one does, if the rounds
      at line boundaries suffice. */
  lemma SucceedsIffMatch(m: Segment, re: Re, fuel: nat, nmatch: nat, given: seq<RegMatch>)
    requires Plain(m, re) && m.Valid() && nmatch <= |given|
    ensures Answer(m, re, fuel, nmatch, given).0 == Success ==> SomeMatch(m, re)
    ensures m.Exact() ==> (Answer(m, re, fuel, nmatch, given).0 == Success <==> SomeMatch(m, re))
    ensures Answer(m, re, fuel, nmatch, given).0 != Success ==>
            Answer(m, re, fuel, nmatch, given) == (REG_NOMATCH, given)
  {
    hide Once, Report, Plain, Scannable, Cold, Answer, Accepts, Matches, EnoughRounds;
    AnswerIs(m, re, fuel, nmatch, given);
    OnceFinds(m, re, nmatch);
    PlainIsValid(m, re);
    var start, stop := m.x.begin, m.x.end;
    FirstEndIsFirst(m, start, start, stop);
    if FirstEnd(m, start, start, stop).Some? {
      var e := FirstEnd(m, start, start, stop).value;
      var k := SomeEndsWitness(m, start, e);
      AcceptsLanguage(m, re, k, e);
      assert start <= k <= e <= stop && Matches(m.g, m.x, re, k, e);
    }
    if SomeMatch(m, re) && m.Exact() {
      var i, j :| start <= i <= j <= stop && Matches(m.g, m.x, re, i, j);
      AcceptsLanguage(m, re, i, j);
      assert SomeEnds(m, start, j);
    }
  }

  /** Some part of the text matches. */
  ghost predicate SomeMatch(m: Segment, re: Re) {
    exists i, j :: m.x.begin <= i <= j <= m.x.end && Matches(m.g, m.x, re, i, j)
  }

  /** Where the match that is reported begins and ends, and how its sub-matches come about. */
  lemma Reported(m: Segment, re: Re, fuel: nat, nmatch: nat, given: seq<RegMatch>) returns (e: int, so: int, eo: int)
    requires Plain(m, re) && m.Valid() && 1 <= nmatch <= |given|
    requires Answer(m, re, fuel, nmatch, given).0 == Success
    ensures Some(e) == FirstEnd(m, m.x.begin, m.x.begin, m.x.end)
    ensures Some(so) == FirstStart(m, LastCold(m, m.x.begin, e), m.x.end)
    ensures Some(eo) == Longest(m, so, m.x.end)
    ensures m.x.begin <= so <= eo <= m.x.end && Matches(m.g, m.x, re, so, eo)
    ensures var r := Answer(m, re, fuel, nmatch, given).1;
            && |r| == |given| && r[0] == RegMatch(so, eo)
            && forall i | 1 <= i < nmatch ::
                 r[i] == if i <= m.g.nsub then Dissected(m.g, m.x, re, so, eo, Blank(m.g).pm)[i] else Unset
  {
    hide Once, Plain, Scannable, Cold, Answer, Longest, FirstEnd, FirstStart, Dissected, SomeEnds, Matches;
    AnswerIs(m, re, fuel, nmatch, given);
    OnceFinds(m, re, nmatch);
    PlainIsValid(m, re);
    var start, stop := m.x.begin, m.x.end;
    var r := Once(m, re, nmatch, Blank(m.g));
    e, so, eo := FirstEnd(m, start, start, stop).value, r.so, r.eo;
    StartExists(m, start, stop);
    FirstStartIsFirst(m, LastCold(m, start, e), stop);
    LongestIsAMatch(m, re, so, stop);
  }

  /** What is reported as the match is one; no match from the same start is longer, if the rounds at line
      boundaries suffice. */
  lemma ReportsLongest(m: Segment, re: Re, fuel: nat, nmatch: nat, given: seq<RegMatch>)
    requires Plain(m, re) && m.Valid() && 1 <= nmatch <= |given|
    requires Answer(m, re, fuel, nmatch, given).0 == Success
    ensures var r := Answer(m, re, fuel, nmatch, given).1;
            |r| == |given| && m.x.begin <= r[0].so <= r[0].eo <= m.x.end && Matches(m.g, m.x, re, r[0].so, r[0].eo)
    ensures var r := Answer(m, re, fuel, nmatch, given).1;
            m.Exact() ==> forall e | r[0].so <= e <= m.x.end && Matches(m.g, m.x, re, r[0].so, e) :: e <= r[0].eo
  {
    hide Plain, Scannable, Answer, Longest, LongestMatch, Matches, EnoughRounds;
    var e, so, eo := Reported(m, re, fuel, nmatch, given);
    PlainIsValid(m, re);
    LongestIsAMatch(m, re, so, m.x.end);
    LongestMatchIsGreatest(m.g, m.x, re, so, m.x.end);
  }

  /** It is the leftmost match whenever no operator that takes a character leads to a state of a
      fresh start (and the rounds suffice). */
  lemma ReportsLeftmost(m: Segment, re: Re, fuel: nat, nmatch: nat, given: seq<RegMatch>)
    requires Plain(m, re) && m.Valid() && 1 <= nmatch <= |given| && Unmasked(m) && m.Exact()
    requires Answer(m, re, fuel, nmatch, given).0 == Success
    ensures var r := Answer(m, re, fuel, nmatch, given).1;
            |r| == |given| &&
            forall i, j | m.x.begin <= i <= j <= m.x.end && Matches(m.g, m.x, re, i, j) :: r[0].so <= i
  {
    hide Plain, Scannable, Answer, FirstStart, FirstEnd, Unmasked, Matches, Accepts, EnoughRounds;
    var e, so, eo := Reported(m, re, fuel, nmatch, given);
    PlainIsValid(m, re);
    UnmaskedIsLeftmost(m, m.x.begin, m.x.end);
    FirstStartIsLeftmost(m, re);
  }

  /** The first start from which a run comes to the end is that of the leftmost match. */
  lemma FirstStartIsLeftmost(m: Segment, re: Re)
    requires m.Codes(re) && m.Valid() && m.Exact()
    ensures var r := FirstStart(m, m.x.begin, m.x.end);
            forall i, j | m.x.begin <= i <= j <= m.x.end && Matches(m.g, m.x, re, i, j) :: r.Some? && r.value <= i
  {
    hide Scannable, FirstStart, Matches, Accepts, EnoughRounds;
    FirstStartIsFirst(m, m.x.begin, m.x.end);
    var r := FirstStart(m, m.x.begin, m.x.end);
    forall i, j | m.x.begin <= i <= j <= m.x.end && Matches(m.g, m.x, re, i, j) ensures r.Some? && r.value <= i {
      AcceptsLanguage(m, re, i, j);
    }
  }

  /** Exactly when: the guard EQ(st, fresh) never succeeds behind the leftmost start, up to the
      first end of a match. */
  lemma ReportsLeftmostIff(m: Segment, re: Re, fuel: nat, nmatch: nat, given: seq<RegMatch>, i0: int)
    requires Plain(m, re) && m.Valid() && 1 <= nmatch <= |given|
    requires Answer(m, re, fuel, nmatch, given).0 == Success
    requires Some(i0) == FirstStart(m, m.x.begin, m.x.end)
    ensures var e := FirstEnd(m, m.x.begin, m.x.begin, m.x.end);
            var r := Answer(m, re, fuel, nmatch, given).1;
            && e.Some? && |r| == |given|
            && (r[0].so == i0 <==> forall p | i0 < p <= e.value :: !Cold(m, m.x.begin, p))
    ensures m.Exact() ==> forall i, j | m.x.begin <= i <= j <= m.x.end && Matches(m.g, m.x, re, i, j) :: i0 <= i
  {
    hide Plain, Scannable, Answer, FirstStart, FirstEnd, Cold, Matches, EnoughRounds;
    var e, so, eo := Reported(m, re, fuel, nmatch, given);
    PlainIsValid(m, re);
    if m.Exact() { FirstStartIsLeftmost(m, re); }
    LeftmostIff(m, m.x.begin, m.x.end);
  }

  /** Every sub-match that is reported is unset, or lies inside the match and is the text that
      some group of its number matched. */
  lemma ReportsGroups(m: Segment, re: Re, fuel: nat, nmatch: nat, given: seq<RegMatch>, i: int)
    requires Plain(m, re) && m.Valid() && Proper(re) && 1 <= i < nmatch <= |given|
    requires Answer(m, re, fuel, nmatch, given).0 == Success
    ensures var r := Answer(m, re, fuel, nmatch, given).1;
            |r| == |given| &&
            (r[i] == Unset || (i <= m.g.nsub && Captured(m.g, m.x, re, i, r[i], r[0].so, r[0].eo)))
  {
    hide Plain, Scannable, Answer, FirstStart, FirstEnd, Longest, Matches, Captured, Dissected;
    var e, so, eo := Reported(m, re, fuel, nmatch, given);
    var pm := WholeRuns(m.g, m.x, re, so, eo, Blank(m.g).pm);
  }

  /** And every group that all matches pass through is set. */
  lemma ReportsMustGroups(m: Segment, re: Re, fuel: nat, nmatch: nat, given: seq<RegMatch>, i: int)
    requires Plain(m, re) && m.Valid() && Proper(re) && 1 <= i < nmatch <= |given| && i <= m.g.nsub && Must(re, i)
    requires Answer(m, re, fuel, nmatch, given).0 == Success
    ensures var r := Answer(m, re, fuel, nmatch, given).1;
            |r| == |given| && r[i] != Unset && Captured(m.g, m.x, re, i, r[i], r[0].so, r[0].eo)
  {
    hide Plain, Scannable, Answer, FirstStart, FirstEnd, Longest, Matches, Captured, Dissected, Must;
    var e, so, eo := Reported(m, re, fuel, nmatch, given);
    var pm := WholeRuns(m.g, m.x, re, so, eo, Blank(m.g).pm);
    PlainIsValid(m, re);
    assert Captured(m.g, m.x, re, i, pm[i], so, eo);
    CapturedIsSet(m.g, m.x, re, i, pm[i], so, eo);
  }

  lemma CapturedIsSet(g: Guts, x: Subject, re: Re, i: nat, r: RegMatch, lo: int, hi: int)
    requires Captured(g, x, re, i, r, lo, hi) && 0 <= lo
    ensures r != Unset
  {
  }

  /** Nothing is written behind the entries that the caller asked for, and nothing at all unless there is
      a match. */
  lemma ReportsNoMore(m: Segment, re: Re, fuel: nat, nmatch: nat, given: seq<RegMatch>)
    requires m.Valid() && nmatch <= |given|
    ensures var a := Answer(m, re, fuel, nmatch, given);
            && |a.1| == |given| && (a.0 != Success ==> a.1 == given)
            && (forall i | nmatch <= i < |given| :: a.1[i] == given[i])
  {
    hide Searched;
  }

  // ----- with back references -----

  /** A success that back references agree to: a run leads through the text that is reported, every
      back reference on it takes what its group held, and the sub-matches are those of the run.  It
      comes to the end of the expression or, if there are choices, to the end of a branch. */
  ghost predicate BackAgrees(m: Segment, re: Re, so: int, eo: int, pm: seq<RegMatch>) {
    && m.x.begin <= so <= eo <= m.x.end && Matches(m.g, m.x, re, so, eo)
    && exists q :: ComesTo(m.g, m.x, Config(m.lo, so, Blank(m.g).pm), m.lo, m.hi, eo, pm, q)
  }

  lemma WholeIsPlaced(m: Segment, re: Re)
    requires Whole(m, re)
    ensures m.Codes(re) && m.Valid() && Placed(m.g, m.g.nsub + 1, m.g.nplus, m.lo, re, m.hi, m.lo, 0)
  {
    CodesValid(m, re);
  }

  lemma {:induction false} ShorterAgrees(m: Segment, re: Re, fuel: nat, so: int, eo: int, s: Store)
    requires Whole(m, re) && m.x.begin <= so <= eo <= m.x.end && Matches(m.g, m.x, re, so, eo)
    requires s.pm == Blank(m.g).pm
    ensures var t := Shorter(m, fuel, so, eo, s);
            && |t.2.pm| == |s.pm| && |t.2.lastpos| == |s.lastpos|
            && (t.0.Done? ==> BackAgrees(m, re, so, t.1, t.2.pm))
            && (t.0.NoMatch? ==> t.2.pm == s.pm)
    decreases eo - so
  {
    hide Runs, Matches, Longest, Blank, Whole, Placed, ComesTo;
    WholeIsPlaced(m, re);
    FailureUndoes(m.g, m.x, fuel, so, eo, m.lo, m.hi, 0, s);
    var q := BacktrackRuns(m.g, m.x, m.g.nsub + 1, m.g.nplus, fuel, m.lo, re, so, eo, m.lo, m.hi, 0, 0, s);
    LongestIsAMatch(m, re, so, eo - 1);
    var r := Backtrack(m.g, m.x, fuel, so, eo, m.lo, m.hi, 0, s);
    if r.0 == NoMatch && eo > so && Longest(m, so, eo - 1).Some? {
      ShorterAgrees(m, re, fuel, so, Longest(m, so, eo - 1).value, r.1);
    }
  }

  lemma {:induction false} RetriedAgrees(m: Segment, re: Re, fuel: nat, start: int, s: Store)
    requires Whole(m, re) && m.Codes(re) && m.Valid() && m.x.begin <= start <= m.x.end
    requires s.pm == Blank(m.g).pm
    ensures var r := Retried(m, fuel, start, s);
            r.status == Success ==> start <= r.so && |r.store.pm| == |s.pm| && BackAgrees(m, re, r.so, r.eo, r.store.pm)
    decreases m.x.end - start
  {
    hide Whole, Scannable, Matches, Longest, FirstStart, FirstEnd, LastCold, Blank, Shorter, BackAgrees;
    if FirstEnd(m, start, start, m.x.end).Some? {
      StartExists(m, start, m.x.end);
      var c := LastCold(m, start, FirstEnd(m, start, start, m.x.end).value);
      FirstStartIsFirst(m, c, m.x.end);
      var so := FirstStart(m, c, m.x.end).value;
      LongestIsAMatch(m, re, so, m.x.end);
      var eo := Longest(m, so, m.x.end).value;
      ShorterAgrees(m, re, fuel, so, eo, s);
      var t := Shorter(m, fuel, so, eo, s);
      if t.0.NoMatch? && so + 1 <= m.x.end { RetriedAgrees(m, re, fuel, so + 1, t.2); }
    }
  }

  /** When all of the text is a match, and the first place can be found, it is tried first. */
  lemma TriesAllFirst(m: Segment, fuel: nat, s: Store)
    requires m.Valid() && Unmasked(m) && Accepts(m, m.x.begin, m.x.end)
    ensures var t := Shorter(m, fuel, m.x.begin, m.x.end, s);
            var r := Retried(m, fuel, m.x.begin, s);
            && (t.0.Done? ==> r == Result(Success, m.x.begin, t.1, t.2))
            && (t.0 == OutOfFuel ==> r.status == Unknown)
  {
    hide Scannable, Unmasked, Accepts, Shorter;
    var start, stop := m.x.begin, m.x.end;
    FirstEndIsFirst(m, start, start, stop);
    assert SomeEnds(m, start, stop);
    UnmaskedIsLeftmost(m, start, stop);
    assert Longest(m, start, stop) == Some(stop);
    assert FirstStart(m, start, stop) == Some(start);
  }

  /** So the backtracker decides at once. */
  lemma AnswersAtOnce(m: Segment, re: Re, fuel: nat, nmatch: nat, given: seq<RegMatch>)
    requires m.Valid() && Unmasked(m) && Accepts(m, m.x.begin, m.x.end)
    requires m.g.backrefs && nmatch <= |given|
    ensures var b := Backtrack(m.g, m.x, fuel, m.x.begin, m.x.end, m.lo, m.hi, 0, Blank(m.g));
            && |b.1.pm| == m.g.nsub + 1
            && (b.0.Done? ==> Answer(m, re, fuel, nmatch, given) ==
                              (Success, Report(m.g, nmatch, given, m.x.begin, m.x.end, b.1.pm)))
            && (b.0 == OutOfFuel ==> Answer(m, re, fuel, nmatch, given).0 == Unknown)
  {
    hide Scannable, Unmasked, Accepts, Backtrack, Report, Retried, Longest;
    FailureUndoes(m.g, m.x, fuel, m.x.begin, m.x.end, m.lo, m.hi, 0, Blank(m.g));
    TriesAllFirst(m, fuel, Blank(m.g));
  }

  /** In particular when it succeeds, */
  lemma AnswersFound(m: Segment, re: Re, fuel: nat, nmatch: nat, given: seq<RegMatch>, found: Store)
    requires Whole(m, re) && m.Valid() && m.Exact() && Unmasked(m) && Matches(m.g, m.x, re, m.x.begin, m.x.end)
    requires m.g.backrefs && nmatch <= |given| && |found.pm| == m.g.nsub + 1
    requires Backtrack(m.g, m.x, fuel, m.x.begin, m.x.end, m.lo, m.hi, 0, Blank(m.g)) == (Done(m.x.end), found)
    ensures Answer(m, re, fuel, nmatch, given) == (Success, Report(m.g, nmatch, given, m.x.begin, m.x.end, found.pm))
  {
    hide Scannable, Unmasked, Matches, Accepts, EnoughRounds, Backtrack, Report, Answer, Blank, Compiled;
    WholeIsPlaced(m, re);
    AcceptsLanguage(m, re, m.x.begin, m.x.end);
    AnswersAtOnce(m, re, fuel, nmatch, given);
  }

  /** or does not end. */
  lemma AnswersNothing(m: Segment, re: Re, fuel: nat, nmatch: nat, given: seq<RegMatch>)
    requires Whole(m, re) && m.Valid() && m.Exact() && Unmasked(m) && Matches(m.g, m.x, re, m.x.begin, m.x.end)
    requires m.g.backrefs && nmatch <= |given|
    requires Backtrack(m.g, m.x, fuel, m.x.begin, m.x.end, m.lo, m.hi, 0, Blank(m.g)).0 == OutOfFuel
    ensures Answer(m, re, fuel, nmatch, given).0 == Unknown
  {
    hide Scannable, Unmasked, Matches, Accepts, EnoughRounds, Backtrack, Report, Answer, Blank, Compiled;
    WholeIsPlaced(m, re);
    AcceptsLanguage(m, re, m.x.begin, m.x.end);
    AnswersAtOnce(m, re, fuel, nmatch, given);
  }

  /** A match that is reported for an expression with back references. */
  lemma ReportsBackreferences(m: Segment, re: Re, fuel: nat, nmatch: nat, given: seq<RegMatch>)
    requires Whole(m, re) && m.Valid() && m.g.backrefs && 1 <= nmatch <= |given|
    requires Answer(m, re, fuel, nmatch, given).0 == Success
    ensures exists pm ::
              && |pm| == m.g.nsub + 1
              && var r := Answer(m, re, fuel, nmatch, given).1;
              && |r| == |given| && BackAgrees(m, re, r[0].so, r[0].eo, pm)
              && forall i | 1 <= i < nmatch :: r[i] == if i <= m.g.nsub then pm[i] else Unset
  {
    hide Whole, Scannable, BackAgrees, Retried;
    WholeIsPlaced(m, re);
    RetriedAgrees(m, re, fuel, m.x.begin, Blank(m.g));
    var r := Retried(m, fuel, m.x.begin, Blank(m.g));
    assert Answer(m, re, fuel, nmatch, given).1 == Report(m.g, nmatch, given, r.so, r.eo, r.store.pm);
    assert BackAgrees(m, re, r.so, r.eo, r.store.pm);
  }

  // ----- fuel -----

  lemma {:induction false} ShorterMoreFuel(m: Segment, fuel: nat, more: nat, so: int, eo: int, s: Store)
    requires fuel <= more && Shorter(m, fuel, so, eo, s).0 != OutOfFuel
    ensures Shorter(m, more, so, eo, s) == Shorter(m, fuel, so, eo, s)
    decreases eo - so
  {
    hide Matches, Longest, Backtrack;
    var r := Backtrack(m.g, m.x, fuel, so, eo, m.lo, m.hi, 0, s);
    MoreFuel(m.g, m.x, fuel, more, so, eo, m.lo, m.hi, 0, s);
    LongestIsGreatest(m, so, eo - 1);
    if r.0 == NoMatch && eo > so && Longest(m, so, eo - 1).Some? {
      ShorterMoreFuel(m, fuel, more, so, Longest(m, so, eo - 1).value, r.1);
    }
  }

  lemma {:induction false} RetriedMoreFuel(m: Segment, fuel: nat, more: nat, start: int, s: Store)
    requires m.Valid() && fuel <= more && Retried(m, fuel, start, s).status != Unknown
    ensures Retried(m, more, start, s) == Retried(m, fuel, start, s)
    decreases m.x.end - start
  {
    hide Scannable, Longest, FirstStart, FirstEnd, LastCold, Shorter;
    var e := FirstEnd(m, start, start, m.x.end);
    if e.Some? {
      var so := FirstStart(m, LastCold(m, start, e.value), m.x.end);
      if so.Some? && so.value >= start {
        var eo := Longest(m, so.value, m.x.end);
        if eo.Some? {
          var t := Shorter(m, fuel, so.value, eo.value, s);
          if t.0 != OutOfFuel { ShorterMoreFuel(m, fuel, more, so.value, eo.value, s); }
          if t.0 == NoMatch && so.value + 1 <= m.x.end { RetriedMoreFuel(m, fuel, more, so.value + 1, t.2); }
        }
      }
    }
  }

  /** The fuel only decides whether there is an answer: any two searches that end agree. */
  lemma FuelIsImmaterial(m: Segment, re: Re, fuel: nat, fuel': nat, nmatch: nat, given: seq<RegMatch>)
    requires m.Valid() && nmatch <= |given|
    requires Answer(m, re, fuel, nmatch, given).0 != Unknown && Answer(m, re, fuel', nmatch, given).0 != Unknown
    ensures Answer(m, re, fuel, nmatch, given) == Answer(m, re, fuel', nmatch, given)
  {
    hide Scannable, Retried, Once, Report, Blank;
    if m.g.backrefs {
      if fuel <= fuel' { RetriedMoreFuel(m, fuel, fuel', m.x.begin, Blank(m.g)); }
      else { RetriedMoreFuel(m, fuel', fuel, m.x.begin, Blank(m.g)); }
    }
  }

  lemma {:induction false} ShorterEnds(m: Segment, re: Re, size: nat, fuel: nat, so: int, eo: int, s: Store)
    requires m.Codes(re) && Numbered(re, size) && AllLoopsTake(m.g, m.x, re)
    requires m.x.begin <= so <= eo <= m.x.end && fuel >= Plenty(re, m.x.end - m.x.begin)
    ensures Shorter(m, fuel, so, eo, s).0 != OutOfFuel
    decreases eo - so
  {
    hide Matches, Longest, Backtrack, AllLoopsTake, Numbered;
    PlentyGrows(re, eo - so, m.x.end - m.x.begin);
    BackrefEnds(size, m.g, m.x, fuel, m.lo, re, so, eo, 0, s);
    LongestIsGreatest(m, so, eo - 1);
    var r := Backtrack(m.g, m.x, fuel, so, eo, m.lo, m.hi, 0, s);
    if r.0 == NoMatch && eo > so && Longest(m, so, eo - 1).Some? {
      ShorterEnds(m, re, size, fuel, so, Longest(m, so, eo - 1).value, r.1);
    }
  }

  lemma PlentyGrows(re: Re, left: nat, more: nat)
    requires left <= more
    ensures Plenty(re, left) <= Plenty(re, more)
  {
    var t: nat := Height(re) + 1;
    assert (more + 1) * t - (left + 1) * t == (more - left) * t >= 0;
  }

  lemma {:induction false} RetriedEnds(m: Segment, re: Re, size: nat, fuel: nat, start: int, s: Store)
    requires m.Codes(re) && m.Valid() && Numbered(re, size) && AllLoopsTake(m.g, m.x, re)
    requires m.x.begin <= start <= m.x.end && fuel >= Plenty(re, m.x.end - m.x.begin)
    ensures Retried(m, fuel, start, s).status != Unknown
    decreases m.x.end - start
  {
    hide Scannable, Matches, Longest, FirstStart, FirstEnd, LastCold, Shorter, AllLoopsTake, Numbered, Plenty;
    if FirstEnd(m, start, start, m.x.end).Some? {
      StartExists(m, start, m.x.end);
      var c := LastCold(m, start, FirstEnd(m, start, start, m.x.end).value);
      FirstStartIsFirst(m, c, m.x.end);
      var so := FirstStart(m, c, m.x.end).value;
      LongestIsGreatest(m, so, m.x.end);
      var eo := Longest(m, so, m.x.end).value;
      ShorterEnds(m, re, size, fuel, so, eo, s);
      var t := Shorter(m, fuel, so, eo, s);
      if t.0.NoMatch? && so + 1 <= m.x.end { RetriedEnds(m, re, size, fuel, so + 1, t.2); }
    }
  }

  /** The search comes to an end for every expression and text in which no loop can be
      passed through without taking text. */
  lemma AlwaysEnds(m: Segment, re: Re, fuel: nat, nmatch: nat, given: seq<RegMatch>)
    requires m.Codes(re) && m.Valid() && Numbered(re, m.g.nsub + 1) && nmatch <= |given|
    requires AllLoopsTake(m.g, m.x, re) && fuel >= Plenty(re, m.x.end - m.x.begin)
    ensures Answer(m, re, fuel, nmatch, given).0 != Unknown
  {
    hide Scannable, Retried, Report, Blank, AllLoopsTake, Numbered, Plenty, Dissected;
    if m.g.backrefs { RetriedEnds(m, re, m.g.nsub + 1, fuel, m.x.begin, Blank(m.g)); }
  }

  /** And for every call of backref() that the matcher makes: it ends unless it comes, in the middle of
      some call, to the same call again. */
  lemma EndsUnlessItRecurs(m: Segment, re: Re, so: int, eo: int, s: Store)
    requires Whole(m, re) && m.x.begin <= so <= eo <= m.x.end
    requires Kept(s, m.g.nsub + 1, m.g.nplus + 1, m.x.end)
    ensures (exists fuel: nat :: Backtrack(m.g, m.x, fuel, so, eo, m.lo, m.hi, 0, s).0 != OutOfFuel) <==>
            !Recurs(Search(m.g, m.x, eo), Call(so, m.lo, m.hi, 0, s))
  {
    hide Compiled, Placed, Kept, Recurs, Backtrack;
    var z, c := Search(m.g, m.x, eo), Call(so, m.lo, m.hi, 0, s);
    WholeIsPlaced(m, re);
    CallIsFine(z, m.g.nsub + 1, m.g.nplus, c, m.lo, re);
    NeverEndsIff(z, m.g.nsub + 1, m.g.nplus, c);
    if exists fuel: nat :: Backtrack(m.g, m.x, fuel, so, eo, m.lo, m.hi, 0, s).0 != OutOfFuel {
      var fuel: nat :| Backtrack(m.g, m.x, fuel, so, eo, m.lo, m.hi, 0, s).0 != OutOfFuel;
      assert Made(z, fuel, c).0 != OutOfFuel;
    }
    if Ends(z, c) {
      var fuel: nat :| Made(z, fuel, c).0 != OutOfFuel;
      assert Backtrack(m.g, m.x, fuel, so, eo, m.lo, m.hi, 0, s).0 != OutOfFuel;
    }
  }
}
