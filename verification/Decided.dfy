/** What the matcher decides for expressions with back references: where backref() tries everything, and no
    start is masked, it answers success if and only if there is a match that the back references agree to,
    and it reports the leftmost of them, and the longest from there. */
module Decided {
  import opened Strip
  import opened Regex
  import opened Running
  import opened SlowScan
  import opened FastScan
  import opened Leftmost
  import opened Captures
  import opened BackNumbers
  import opened Backtracking
  import opened TreeRanks
  import opened BackRuns
  import opened Matching
  import opened Promises
  import opened Exhaustive

  /** The expression as regcomp() compiles it, with OEND behind it. */
  ghost predicate Decidable(m: Segment, re: Re) {
    Whole(m, re) && m.g.backrefs && PlainLoops(re) && m.hi < |m.g.strip| && m.g.strip[m.hi].OEND?
  }

  /** The automaton matches from i to j, and so does a run on which every back reference takes what its
      group holds. */
  ghost predicate Agreed(m: Segment, i: int, j: int) {
    Accepts(m, i, j) && Leads(m.g, m.x, Config(m.lo, i, Blank(m.g).pm), m.hi, j)
  }

  /** The tables as a call from the matcher finds them. */
  ghost predicate Clean(m: Segment, s: Store) {
    s.pm == Blank(m.g).pm && |s.lastpos| == m.g.nplus + 1
  }

  lemma BlankIsClean(m: Segment)
    ensures Clean(m, Blank(m.g))
  {
  }

  /** One call. */
  lemma CallDecides(m: Segment, re: Re, fuel: nat, so: int, eo: int, s: Store)
    requires Decidable(m, re) && Clean(m, s) && m.x.begin <= so <= eo <= m.x.end && Accepts(m, so, eo)
    requires Backtrack(m.g, m.x, fuel, so, eo, m.lo, m.hi, 0, s).0 != OutOfFuel
    ensures var r := Backtrack(m.g, m.x, fuel, so, eo, m.lo, m.hi, 0, s);
            (r.0.Done? <==> Agreed(m, so, eo)) && (r.0.NoMatch? ==> Clean(m, r.1))
  {
    hide Accepts, Backtrack, PlainLoops, Compiled, Blank, Leads, Placed;
    WholeIsPlaced(m, re);
    FailureUndoes(m.g, m.x, fuel, so, eo, m.lo, m.hi, 0, s);
    Decides(m.g, m.x, m.g.nsub + 1, m.g.nplus, fuel, m.lo, re, so, eo, s);
  }

  /** Backing off from a match to shorter ones finds the longest that is agreed to. */
  lemma {:induction false} ShorterDecides(m: Segment, re: Re, fuel: nat, so: int, eo: int, s: Store)
    requires Decidable(m, re) && Clean(m, s) && m.x.begin <= so <= eo <= m.x.end && Accepts(m, so, eo)
    requires Shorter(m, fuel, so, eo, s).0 != OutOfFuel
    ensures var t := Shorter(m, fuel, so, eo, s);
            && (t.0.Done? ==> so <= t.1 <= eo && Agreed(m, so, t.1) && forall e | t.1 < e <= eo :: !Agreed(m, so, e))
            && (t.0.NoMatch? ==> Clean(m, t.2) && forall e | so <= e <= eo :: !Agreed(m, so, e))
    decreases eo - so
  {
    hide Decidable, Clean, Accepts, Backtrack, Longest, Leads;
    var r := Backtrack(m.g, m.x, fuel, so, eo, m.lo, m.hi, 0, s);
    CallDecides(m, re, fuel, so, eo, s);
    LongestIsGreatest(m, so, eo - 1);
    if r.0.NoMatch? && so < eo && Longest(m, so, eo - 1).Some? {
      ShorterDecides(m, re, fuel, so, Longest(m, so, eo - 1).value, r.1);
    }
  }

  /** No match that begins in [from, upto) is agreed to. */
  ghost predicate NoneFrom(m: Segment, from: int, upto: int) {
    forall i, j | from <= i < upto && i <= j <= m.x.end :: !Agreed(m, i, j)
  }

  /** The first place that is tried, and the longest match from there. */
  lemma NextPlace(m: Segment, start: int)
    requires m.Valid() && Unmasked(m) && m.x.begin <= start <= m.x.end
    ensures var e := FirstEnd(m, start, start, m.x.end);
            && (e.None? ==> NoneFrom(m, start, m.x.end + 1))
            && (e.Some? ==>
                  var so := FirstStart(m, LastCold(m, start, e.value), m.x.end);
                  && so.Some? && start <= so.value <= m.x.end && NoneFrom(m, start, so.value)
                  && var eo := Longest(m, so.value, m.x.end);
                  && eo.Some? && so.value <= eo.value <= m.x.end && Accepts(m, so.value, eo.value)
                  && forall j | eo.value < j <= m.x.end :: !Agreed(m, so.value, j))
  {
    hide Scannable, Accepts, LastCold, Longest, FirstStart, FirstEnd, Unmasked, Leads;
    FirstEndIsFirst(m, start, start, m.x.end);
    FirstStartIsFirst(m, start, m.x.end);
    if FirstEnd(m, start, start, m.x.end).Some? {
      LeftmostIff(m, start, m.x.end);
      UnmaskedIsLeftmost(m, start, m.x.end);
      LongestIsGreatest(m, FirstStart(m, start, m.x.end).value, m.x.end);
    } else {
      forall i, j | start <= i < m.x.end + 1 && i <= j <= m.x.end ensures !Agreed(m, i, j) {
        assert !SomeEnds(m, start, j);
      }
    }
  }

  lemma NoneJoin(m: Segment, from: int, mid: int)
    requires NoneFrom(m, from, mid) && NoneFrom(m, mid + 1, m.x.end + 1)
    requires forall j | mid <= j <= m.x.end :: !Agreed(m, mid, j)
    ensures NoneFrom(m, from, m.x.end + 1)
  {
    hide Agreed;
  }

  lemma {:induction false} RetriedDecides(m: Segment, re: Re, fuel: nat, start: int, s: Store)
    requires Decidable(m, re) && m.Valid() && Unmasked(m) && Clean(m, s) && m.x.begin <= start <= m.x.end
    requires Retried(m, fuel, start, s).status != Unknown
    ensures var r := Retried(m, fuel, start, s);
            if r.status == Success then
              && start <= r.so <= r.eo <= m.x.end && Agreed(m, r.so, r.eo) && NoneFrom(m, start, r.so)
              && forall j | r.eo < j <= m.x.end :: !Agreed(m, r.so, j)
            else NoneFrom(m, start, m.x.end + 1)
    decreases m.x.end - start
  {
    hide Decidable, Clean, Scannable, Unmasked, Agreed, FirstEnd, FirstStart, LastCold, Longest, Shorter, Accepts;
    NextPlace(m, start);
    var e := FirstEnd(m, start, start, m.x.end);
    if e.Some? {
      var so := FirstStart(m, LastCold(m, start, e.value), m.x.end).value;
      var eo := Longest(m, so, m.x.end).value;
      var t := Shorter(m, fuel, so, eo, s);
      if t.0 != OutOfFuel {
        ShorterDecides(m, re, fuel, so, eo, s);
        if t.0.NoMatch? {
          if so < m.x.end { RetriedDecides(m, re, fuel, so + 1, t.2); }
          if so == m.x.end || Retried(m, fuel, so + 1, t.2).status != Success { NoneJoin(m, start, so); }
        }
      }
    }
  }

  // ----- and it ends -----

  lemma {:induction false} StraightTakes(g: Guts, x: Subject, b: Re, i: int)
    requires Straight(b)
    ensures LoopsTake(g, x, b, i) && (Gains(b) > 0 ==> !Idles(g, x, b, i))
    decreases b
  {
    if b.Then? {
      var n := b.head;
      if n.Bracket? { StraightTakes(g, x, n.body, i); }
      assert NodeLoopsTake(g, x, n, i) && (NodeGains(n) > 0 ==> !NodeIdles(g, x, n, i));
      StraightTakes(g, x, b.tail, i);
    }
  }

  lemma {:induction false} PlainLoopsTake(g: Guts, x: Subject, re: Re, i: int)
    requires PlainLoops(re)
    ensures LoopsTake(g, x, re, i)
    decreases re
  {
    if re.Then? {
      if re.head.Bracket? {
        if re.head.kind.Plus? { StraightTakes(g, x, re.head.body, i); } else { PlainLoopsTake(g, x, re.head.body, i); }
      }
      PlainLoopsTake(g, x, re.tail, i);
    }
  }

  /** The matcher decides: with fuel enough it answers success if and only if there is a match that the back
      references agree to; then the match reported is the leftmost of them, and the longest from its start. */
  lemma MatcherDecides(m: Segment, re: Re, fuel: nat, nmatch: nat, given: seq<RegMatch>)
    requires Decidable(m, re) && m.Valid() && Unmasked(m) && Numbered(re, m.g.nsub + 1)
    requires fuel >= Plenty(re, m.x.end - m.x.begin) && nmatch <= |given|
    ensures Answer(m, re, fuel, nmatch, given).0 == Success <==> exists i, j :: m.x.begin <= i <= j <= m.x.end && Agreed(m, i, j)
    ensures var a := Answer(m, re, fuel, nmatch, given);
            a.0 == Success && nmatch >= 1 ==>
              && |a.1| == |given|
              && m.x.begin <= a.1[0].so <= a.1[0].eo <= m.x.end && Agreed(m, a.1[0].so, a.1[0].eo)
              && (forall i, j | m.x.begin <= i <= j <= m.x.end && Agreed(m, i, j) :: a.1[0].so <= i)
              && (forall j | a.1[0].eo < j <= m.x.end :: !Agreed(m, a.1[0].so, j))
  {
    hide Scannable, Unmasked, Agreed, PlainLoops, Retried, Blank, Report, Numbered, Plenty, Clean, AllLoopsTake;
    assert AllLoopsTake(m.g, m.x, re) by { LoopsTakeEverywhere(m.g, m.x, re); }
    WholeIsPlaced(m, re);
    BlankIsClean(m);
    AlwaysEnds(m, re, fuel, nmatch, given);
    RetriedDecides(m, re, fuel, m.x.begin, Blank(m.g));
    RetriedAgrees(m, re, fuel, m.x.begin, Blank(m.g));
    ReportsFirst(m, re, fuel, nmatch, given);
  }

  lemma LoopsTakeEverywhere(g: Guts, x: Subject, re: Re)
    requires PlainLoops(re)
    ensures AllLoopsTake(g, x, re)
  {
    forall i ensures LoopsTake(g, x, re, i) { PlainLoopsTake(g, x, re, i); }
  }

  lemma ReportsFirst(m: Segment, re: Re, fuel: nat, nmatch: nat, given: seq<RegMatch>)
    requires m.Valid() && m.g.backrefs && nmatch <= |given|
    requires var r := Retried(m, fuel, m.x.begin, Blank(m.g)); r.status == Success ==> |r.store.pm| == |Blank(m.g).pm|
    ensures var r := Retried(m, fuel, m.x.begin, Blank(m.g));
            var a := Answer(m, re, fuel, nmatch, given);
            a.0 == r.status && (r.status == Success && nmatch >= 1 ==> |a.1| == |given| && a.1[0] == RegMatch(r.so, r.eo))
  {
    hide Retried;
  }
}
