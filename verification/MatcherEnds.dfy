/** When the matcher ends: exactly when no call of backref() that it makes comes back to itself. */
module MatcherEnds {
  import opened Strip
  import opened Regex
  import opened Options
  import opened Running
  import opened SlowScan
  import opened FastScan
  import opened Leftmost
  import opened Captures
  import opened Layout
  import opened BackNumbers
  import opened Backtracking
  import opened TreeRanks
  import opened Recurrence
  import opened FiniteCalls
  import opened Matching
  import opened Promises
  import opened FalseAlarms

  // ----- the calls that the matcher makes -----

  /** Backing off from the match [so, eo], where the tables hold s, it comes to call backref() on [so, eo'],
      where they hold s': each call before has failed. */
  ghost predicate BacksOff(m: Segment, fuel: nat, so: int, eo: int, s: Store, eo': int, s': Store)
    decreases eo - so
  {
    || (eo' == eo && s' == s)
    || (var r := Backtrack(m.g, m.x, fuel, so, eo, m.lo, m.hi, 0, s);
        var e := Longest(m, so, eo - 1);
        r.0.NoMatch? && so < eo && e.Some? && so <= e.value < eo && BacksOff(m, fuel, so, e.value, r.1, eo', s'))
  }

  /** The search from `start` comes to call backref() on [so, eo], where the tables hold s'. */
  ghost predicate Makes(m: Segment, fuel: nat, start: int, s: Store, so: int, eo: int, s': Store)
    requires m.Valid()
    decreases m.x.end - start
  {
    var i := NextTry(m, start);
    i.Some? && start <= i.value <= m.x.end &&
    var top := Longest(m, i.value, m.x.end);
    top.Some? &&
    (|| (so == i.value && BacksOff(m, fuel, i.value, top.value, s, eo, s'))
     || (var t := Shorter(m, fuel, i.value, top.value, s);
         t.0.NoMatch? && i.value < m.x.end && Makes(m, fuel, i.value + 1, t.2, so, eo, s')))
  }

  ghost predicate CallRecurs(m: Segment, so: int, eo: int, s: Store) {
    Recurs(Search(m.g, m.x, eo), Call(so, m.lo, m.hi, 0, s))
  }

  /** Some call that the search from `start` makes comes back to itself. */
  ghost predicate SomeRecurs(m: Segment, start: int, s: Store)
    requires m.Valid()
  {
    exists fuel: nat, so, eo, s' :: Makes(m, fuel, start, s, so, eo, s') && CallRecurs(m, so, eo, s')
  }

  ghost predicate BackOffRecurs(m: Segment, so: int, eo: int, s: Store) {
    exists fuel: nat, eo', s' :: BacksOff(m, fuel, so, eo, s, eo', s') && CallRecurs(m, so, eo', s')
  }

  // ----- what the tables hold stays inside the text -----

  ghost predicate InTables(m: Segment, s: Store) {
    Kept(s, m.g.nsub + 1, m.g.nplus + 1, m.x.end)
  }

  lemma BlankInTables(m: Segment)
    requires m.x.Valid()
    ensures InTables(m, Blank(m.g))
  {
  }

  lemma CallInTables(m: Segment, fuel: nat, so: int, eo: int, s: Store)
    requires 0 <= so <= eo <= m.x.end && InTables(m, s)
    ensures InTables(m, Backtrack(m.g, m.x, fuel, so, eo, m.lo, m.hi, 0, s).1)
  {
    BacktrackKeeps(m.g, m.x, fuel, so, eo, m.lo, m.hi, 0, s, m.g.nsub + 1, m.g.nplus + 1);
  }

  lemma {:induction false} ShorterInTables(m: Segment, fuel: nat, so: int, eo: int, s: Store)
    requires 0 <= so <= eo <= m.x.end && InTables(m, s)
    ensures InTables(m, Shorter(m, fuel, so, eo, s).2)
    decreases eo - so
  {
    hide InTables, Backtrack, Longest;
    CallInTables(m, fuel, so, eo, s);
    LongestIsGreatest(m, so, eo - 1);
    var r := Backtrack(m.g, m.x, fuel, so, eo, m.lo, m.hi, 0, s);
    if r.0 == NoMatch && eo > so && Longest(m, so, eo - 1).Some? {
      ShorterInTables(m, fuel, so, Longest(m, so, eo - 1).value, r.1);
    }
  }

  lemma {:induction false} BacksOffInTables(m: Segment, fuel: nat, so: int, eo: int, s: Store, eo': int, s': Store)
    requires 0 <= so <= eo <= m.x.end && InTables(m, s) && BacksOff(m, fuel, so, eo, s, eo', s')
    ensures so <= eo' <= eo && InTables(m, s')
    decreases eo - so
  {
    hide InTables, Backtrack, Longest;
    if !(eo' == eo && s' == s) {
      CallInTables(m, fuel, so, eo, s);
      BacksOffInTables(m, fuel, so, Longest(m, so, eo - 1).value,
                       Backtrack(m.g, m.x, fuel, so, eo, m.lo, m.hi, 0, s).1, eo', s');
    }
  }

  /** Every call that the matcher makes lies inside the text and finds tables that do, also behind a call
      on a longer match. */
  lemma {:induction false} MakesInTables(m: Segment, fuel: nat, start: int, s: Store, so: int, eo: int, s': Store)
    requires m.Valid() && m.x.begin <= start <= m.x.end && InTables(m, s)
    requires Makes(m, fuel, start, s, so, eo, s')
    ensures m.x.begin <= so <= eo <= m.x.end && InTables(m, s')
    decreases m.x.end - start
  {
    hide Scannable, InTables, Backtrack, Longest, Shorter, NextTry, BacksOff;
    NextTryIs(m, start);
    var i := NextTry(m, start).value;
    var top := Longest(m, i, m.x.end).value;
    if so == i && BacksOff(m, fuel, i, top, s, eo, s') {
      BacksOffInTables(m, fuel, i, top, s, eo, s');
    } else {
      ShorterInTables(m, fuel, i, top, s);
      MakesInTables(m, fuel, i + 1, Shorter(m, fuel, i, top, s).2, so, eo, s');
    }
  }

  // ----- a call that recurs stops everything -----

  /** While a call that is made lacks fuel, so does the search. */
  lemma {:induction false} BacksOffWaits(m: Segment, fuel: nat, so: int, eo: int, s: Store, eo': int, s': Store)
    requires BacksOff(m, fuel, so, eo, s, eo', s')
    requires Backtrack(m.g, m.x, fuel, so, eo', m.lo, m.hi, 0, s').0 == OutOfFuel
    ensures Shorter(m, fuel, so, eo, s).0 == OutOfFuel
    decreases eo - so
  {
    hide Backtrack, Longest;
    if !(eo' == eo && s' == s) {
      BacksOffWaits(m, fuel, so, Longest(m, so, eo - 1).value,
                    Backtrack(m.g, m.x, fuel, so, eo, m.lo, m.hi, 0, s).1, eo', s');
    }
  }

  /** What Retried is, in terms of the next try. */
  lemma Turn(m: Segment, fuel: nat, start: int, s: Store)
    requires m.Valid() && m.x.begin <= start <= m.x.end
    ensures var i := NextTry(m, start);
            && (i.None? ==> Retried(m, fuel, start, s).status == REG_NOMATCH)
            && (i.Some? ==>
                  && start <= i.value <= m.x.end
                  && var top := Longest(m, i.value, m.x.end);
                  && top.Some? && i.value <= top.value <= m.x.end
                  && var t := Shorter(m, fuel, i.value, top.value, s);
                  && (t.0.Done? ==> Retried(m, fuel, start, s).status == Success)
                  && (t.0 == OutOfFuel ==> Retried(m, fuel, start, s).status == Unknown)
                  && (t.0.NoMatch? ==> Retried(m, fuel, start, s).status ==
                                       if i.value == m.x.end then Stuck else Retried(m, fuel, i.value + 1, t.2).status))
  {
    hide Scannable, FirstEnd, FirstStart, LastCold, Longest, Shorter, Retried;
    NextTryIs(m, start);
    if NextTry(m, start).Some? {
      var i := NextTry(m, start).value;
      TurnIs(m, fuel, start, s, i, Longest(m, i, m.x.end).value);
    } else {
      MissIs(m, fuel, start, s);
    }
  }

  lemma {:induction false} MakesWaits(m: Segment, fuel: nat, start: int, s: Store, so: int, eo: int, s': Store)
    requires m.Valid() && m.x.begin <= start <= m.x.end && Makes(m, fuel, start, s, so, eo, s')
    requires Backtrack(m.g, m.x, fuel, so, eo, m.lo, m.hi, 0, s').0 == OutOfFuel
    ensures Retried(m, fuel, start, s).status == Unknown
    decreases m.x.end - start
  {
    hide Scannable, Backtrack, Longest, Shorter, NextTry, BacksOff, Retried;
    Turn(m, fuel, start, s);
    var i := NextTry(m, start).value;
    var top := Longest(m, i, m.x.end).value;
    if so == i && BacksOff(m, fuel, i, top, s, eo, s') {
      BacksOffWaits(m, fuel, i, top, s, eo, s');
    } else {
      MakesWaits(m, fuel, i + 1, Shorter(m, fuel, i, top, s).2, so, eo, s');
    }
  }

  lemma {:induction false} BacksOffMore(m: Segment, fuel: nat, more: nat, so: int, eo: int, s: Store, eo': int, s': Store)
    requires fuel <= more && BacksOff(m, fuel, so, eo, s, eo', s')
    ensures BacksOff(m, more, so, eo, s, eo', s')
    decreases eo - so
  {
    hide Backtrack, Longest;
    if !(eo' == eo && s' == s) {
      MoreFuel(m.g, m.x, fuel, more, so, eo, m.lo, m.hi, 0, s);
      BacksOffMore(m, fuel, more, so, Longest(m, so, eo - 1).value,
                   Backtrack(m.g, m.x, fuel, so, eo, m.lo, m.hi, 0, s).1, eo', s');
    }
  }

  /** More fuel leads to the same calls, and to more of them. */
  lemma {:induction false} MakesMore(m: Segment, fuel: nat, more: nat, start: int, s: Store, so: int, eo: int, s': Store)
    requires m.Valid() && fuel <= more && Makes(m, fuel, start, s, so, eo, s')
    ensures Makes(m, more, start, s, so, eo, s')
    decreases m.x.end - start
  {
    hide Scannable, Longest, Shorter, NextTry, BacksOff;
    var i := NextTry(m, start).value;
    var top := Longest(m, i, m.x.end).value;
    if so == i && BacksOff(m, fuel, i, top, s, eo, s') {
      BacksOffMore(m, fuel, more, i, top, s, eo, s');
    } else {
      ShorterMoreFuel(m, fuel, more, i, top, s);
      MakesMore(m, fuel, more, i + 1, Shorter(m, fuel, i, top, s).2, so, eo, s');
    }
  }

  lemma RecursIsUnknown(m: Segment, start: int, s: Store, fuel: nat)
    requires m.Valid() && m.x.begin <= start <= m.x.end && SomeRecurs(m, start, s)
    ensures Retried(m, fuel, start, s).status == Unknown
  {
    hide Scannable, Retried, Backtrack, Recurs;
    var f: nat, so, eo, s' :| Makes(m, f, start, s, so, eo, s') && CallRecurs(m, so, eo, s');
    hide Makes;
    var more := Max(fuel, f);
    var z, c := Search(m.g, m.x, eo), Call(so, m.lo, m.hi, 0, s');
    RecursNeverEnds(z, c);
    assert Made(z, more, c).0 == OutOfFuel;
    MakesMore(m, f, more, start, s, so, eo, s');
    MakesWaits(m, more, start, s, so, eo, s');
    if Retried(m, fuel, start, s).status != Unknown { RetriedMoreFuel(m, fuel, more, start, s); }
  }

  // ----- and without one it ends -----

  lemma CallEnds(m: Segment, re: Re, so: int, eo: int, s: Store) returns (fuel: nat)
    requires Whole(m, re) && m.x.begin <= so <= eo <= m.x.end && InTables(m, s) && !CallRecurs(m, so, eo, s)
    ensures Backtrack(m.g, m.x, fuel, so, eo, m.lo, m.hi, 0, s).0 != OutOfFuel
  {
    hide Whole, Recurs, Backtrack, Kept;
    EndsUnlessItRecurs(m, re, so, eo, s);
    fuel :| Backtrack(m.g, m.x, fuel, so, eo, m.lo, m.hi, 0, s).0 != OutOfFuel;
  }

  lemma {:induction false} BackOffEnds(m: Segment, re: Re, so: int, eo: int, s: Store) returns (fuel: nat)
    requires Whole(m, re) && m.x.Valid() && m.x.begin <= so <= eo <= m.x.end && InTables(m, s) && !BackOffRecurs(m, so, eo, s)
    ensures Shorter(m, fuel, so, eo, s).0 != OutOfFuel
    decreases eo - so
  {
    hide Whole, InTables, CallRecurs, Backtrack, Longest;
    assert BacksOff(m, 0, so, eo, s, eo, s);
    fuel := CallEnds(m, re, so, eo, s);
    var r := Backtrack(m.g, m.x, fuel, so, eo, m.lo, m.hi, 0, s);
    LongestIsGreatest(m, so, eo - 1);
    var e := Longest(m, so, eo - 1);
    if r.0.NoMatch? && so < eo && e.Some? {
      CallInTables(m, fuel, so, eo, s);
      BackOffGoesOn(m, fuel, so, eo, s);
      var more := BackOffEnds(m, re, so, e.value, r.1);
      var both := Max(fuel, more);
      MoreFuel(m.g, m.x, fuel, both, so, eo, m.lo, m.hi, 0, s);
      ShorterMoreFuel(m, more, both, so, e.value, r.1);
      fuel := both;
    }
  }

  /** What the rest of the back-off calls, all of it calls. */
  lemma BackOffGoesOn(m: Segment, fuel: nat, so: int, eo: int, s: Store)
    requires !BackOffRecurs(m, so, eo, s) && so < eo
    requires Backtrack(m.g, m.x, fuel, so, eo, m.lo, m.hi, 0, s).0.NoMatch?
    requires var e := Longest(m, so, eo - 1); e.Some? && so <= e.value < eo
    ensures !BackOffRecurs(m, so, Longest(m, so, eo - 1).value,
                           Backtrack(m.g, m.x, fuel, so, eo, m.lo, m.hi, 0, s).1)
  {
    hide CallRecurs, Backtrack, Longest;
    var e := Longest(m, so, eo - 1).value;
    var r := Backtrack(m.g, m.x, fuel, so, eo, m.lo, m.hi, 0, s);
    if BackOffRecurs(m, so, e, r.1) {
      var f: nat, eo', s' :| BacksOff(m, f, so, e, r.1, eo', s') && CallRecurs(m, so, eo', s');
      var both := Max(fuel, f);
      BacksOffMore(m, f, both, so, e, r.1, eo', s');
      MoreFuel(m.g, m.x, fuel, both, so, eo, m.lo, m.hi, 0, s);
      assert BacksOff(m, both, so, eo, s, eo', s');
    }
  }

  lemma TopRecurs(m: Segment, start: int, s: Store, i: int, top: int)
    requires m.Valid() && NextTry(m, start) == Some(i) && start <= i <= m.x.end
    requires Longest(m, i, m.x.end) == Some(top) && BackOffRecurs(m, i, top, s)
    ensures SomeRecurs(m, start, s)
  {
    hide Scannable, CallRecurs, BacksOff, NextTry, Longest, Shorter;
    var f: nat, eo, s' :| BacksOff(m, f, i, top, s, eo, s') && CallRecurs(m, i, eo, s');
    assert Makes(m, f, start, s, i, eo, s');
  }

  lemma LaterRecurs(m: Segment, fuel: nat, start: int, s: Store, i: int, top: int)
    requires m.Valid() && NextTry(m, start) == Some(i) && start <= i < m.x.end
    requires Longest(m, i, m.x.end) == Some(top) && Shorter(m, fuel, i, top, s).0.NoMatch?
    requires SomeRecurs(m, i + 1, Shorter(m, fuel, i, top, s).2)
    ensures SomeRecurs(m, start, s)
  {
    hide Scannable, CallRecurs, NextTry, Longest, Shorter;
    var t := Shorter(m, fuel, i, top, s);
    var f: nat, so, eo, s' :| Makes(m, f, i + 1, t.2, so, eo, s') && CallRecurs(m, so, eo, s');
    var both := Max(fuel, f);
    MakesMore(m, f, both, i + 1, t.2, so, eo, s');
    ShorterMoreFuel(m, fuel, both, i, top, s);
    assert Makes(m, both, start, s, so, eo, s');
  }

  lemma {:induction false} SearchEnds(m: Segment, re: Re, start: int, s: Store) returns (fuel: nat)
    requires Whole(m, re) && m.Codes(re) && m.Valid() && m.x.begin <= start <= m.x.end && InTables(m, s)
    requires !SomeRecurs(m, start, s)
    ensures Retried(m, fuel, start, s).status != Unknown
    decreases m.x.end - start
  {
    hide Whole, Scannable, InTables, SomeRecurs, BackOffRecurs, NextTry, Longest, Shorter, Retried;
    fuel := 0;
    Turn(m, 0, start, s);
    if NextTry(m, start).Some? {
      var i := NextTry(m, start).value;
      var top := Longest(m, i, m.x.end).value;
      if BackOffRecurs(m, i, top, s) { TopRecurs(m, start, s, i, top); }
      fuel := BackOffEnds(m, re, i, top, s);
      Turn(m, fuel, start, s);
      var t := Shorter(m, fuel, i, top, s);
      if t.0.NoMatch? && i < m.x.end {
        ShorterInTables(m, fuel, i, top, s);
        if SomeRecurs(m, i + 1, t.2) { LaterRecurs(m, fuel, start, s, i, top); }
        var more := SearchEnds(m, re, i + 1, t.2);
        var both := Max(fuel, more);
        ShorterMoreFuel(m, fuel, both, i, top, s);
        RetriedMoreFuel(m, more, both, i + 1, t.2);
        Turn(m, both, start, s);
        fuel := both;
      }
    }
  }

  /** Some amount of fuel is enough for the matcher if and only if none of the calls of backref() that it
      makes, back-offs and recycling included, comes back to itself. */
  lemma EndsIff(m: Segment, re: Re, nmatch: nat, given: seq<RegMatch>)
    requires Whole(m, re) && m.Valid() && nmatch <= |given|
    ensures (exists fuel: nat :: Answer(m, re, fuel, nmatch, given).0 != Unknown) <==>
            !(m.g.backrefs && SomeRecurs(m, m.x.begin, Blank(m.g)))
  {
    hide Whole, Scannable, InTables, SomeRecurs, Retried, Report, Blank, Dissected;
    WholeIsPlaced(m, re);
    BlankInTables(m);
    if m.g.backrefs {
      if SomeRecurs(m, m.x.begin, Blank(m.g)) {
        forall fuel: nat ensures Answer(m, re, fuel, nmatch, given).0 == Unknown {
          RecursIsUnknown(m, m.x.begin, Blank(m.g), fuel);
        }
      } else {
        var fuel := SearchEnds(m, re, m.x.begin, Blank(m.g));
        assert Answer(m, re, fuel, nmatch, given).0 != Unknown;
      }
    } else {
      assert Answer(m, re, 0, nmatch, given).0 != Unknown;
    }
  }

  /** Where no loop can be passed through without taking text, and the search does not run off the text,
      the matcher says that there is a match or that there is none. */
  lemma AlwaysAnswers(m: Segment, re: Re, fuel: nat, nmatch: nat, given: seq<RegMatch>)
    requires m.Codes(re) && m.Valid() && Numbered(re, m.g.nsub + 1) && nmatch <= |given|
    requires AllLoopsTake(m.g, m.x, re) && fuel >= Plenty(re, m.x.end - m.x.begin)
    ensures Answer(m, re, fuel, nmatch, given).0 == Stuck <==> m.g.backrefs && RefusedAtEnd(m, fuel, m.x.begin, Blank(m.g))
    ensures var status := Answer(m, re, fuel, nmatch, given).0; status == Success || status == REG_NOMATCH || status == Stuck
  {
    hide Scannable, AllLoopsTake, Numbered, Plenty, RefusedAtEnd, Retried, Once;
    AlwaysEnds(m, re, fuel, nmatch, given);
    AnswersStuckIff(m, re, fuel, nmatch, given);
    NeverInvalid(m, re, fuel, m.x.begin, Blank(m.g), nmatch);
  }

  lemma {:induction false} NeverInvalid(m: Segment, re: Re, fuel: nat, start: int, s: Store, nmatch: nat)
    requires m.Valid()
    ensures Retried(m, fuel, start, s).status != REG_INVARG && Once(m, re, nmatch, s).status != REG_INVARG
    decreases m.x.end - start
  {
    hide Scannable, FirstEnd, FirstStart, LastCold, Longest, Shorter, Dissected;
    var e := FirstEnd(m, start, start, m.x.end);
    if e.Some? {
      var so := FirstStart(m, LastCold(m, start, e.value), m.x.end);
      if so.Some? && start <= so.value < m.x.end {
        var eo := Longest(m, so.value, m.x.end);
        if eo.Some? { NeverInvalid(m, re, fuel, so.value + 1, Shorter(m, fuel, so.value, eo.value, s).2, nmatch); }
      }
    }
  }
}
