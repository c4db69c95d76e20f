/** When the search runs off the text: behind a false alarm at the very end the matcher would go on with
    `start` beyond `stop`.  Status `Stuck` stands for that. */
module FalseAlarms {
  import opened Strip
  import opened Regex
  import opened Options
  import opened Running
  import opened Boundary
  import opened SlowScan
  import opened FastScan
  import opened Leftmost
  import opened Captures
  import opened BackNumbers
  import opened Backtracking
  import opened Building
  import opened Matching
  import opened Assembly
  import opened Promises

  /** Where the next matches are tried, from `start` on. */
  ghost function NextTry(m: Segment, start: int): Option<int>
    requires m.Valid()
  {
    var e := FirstEnd(m, start, start, m.x.end);
    if e.None? then None else FirstStart(m, LastCold(m, start, e.value), m.x.end)
  }

  /** The search from `start` comes to try the matches that begin at i, and has the store `s'` there:
      every place that was tried before was a false alarm. */
  ghost predicate Tries(m: Segment, fuel: nat, start: int, s: Store, i: int, s': Store)
    requires m.Valid()
    decreases m.x.end - start
  {
    var so := NextTry(m, start);
    so.Some? && start <= so.value <= m.x.end &&
    ((i == so.value && s' == s) ||
     (var eo := Longest(m, so.value, m.x.end);
      eo.Some? &&
      var t := Shorter(m, fuel, so.value, eo.value, s);
      t.0.NoMatch? && so.value < m.x.end && Tries(m, fuel, so.value + 1, t.2, i, s')))
  }

  /** The search comes to the end of the text, and backref() refuses the empty match there. */
  ghost predicate RefusedAtEnd(m: Segment, fuel: nat, start: int, s: Store)
    requires m.Valid()
  {
    exists s' :: Tries(m, fuel, start, s, m.x.end, s') && Refuses(m, fuel, s')
  }

  ghost predicate Refuses(m: Segment, fuel: nat, s: Store) {
    Backtrack(m.g, m.x, fuel, m.x.end, m.x.end, m.lo, m.hi, 0, s).0.NoMatch?
  }

  lemma NextTryIs(m: Segment, start: int)
    requires m.Valid() && m.x.begin <= start <= m.x.end
    ensures var so := NextTry(m, start);
            && (so.None? <==> FirstEnd(m, start, start, m.x.end).None?)
            && (so.Some? ==>
                  && start <= so.value <= m.x.end && Longest(m, so.value, m.x.end).Some?
                  && so.value <= Longest(m, so.value, m.x.end).value <= m.x.end)
  {
    hide Scannable, FirstEnd, LastCold;
    if FirstEnd(m, start, start, m.x.end).Some? {
      StartExists(m, start, m.x.end);
      var c := LastCold(m, start, FirstEnd(m, start, start, m.x.end).value);
      FirstStartIsFirst(m, c, m.x.end);
      LongestIsGreatest(m, FirstStart(m, c, m.x.end).value, m.x.end);
    }
  }

  /** One turn of the loop of matcher(). */
  lemma OneTurn(m: Segment, fuel: nat, start: int, s: Store)
    requires m.Valid() && m.x.begin <= start <= m.x.end && NextTry(m, start).Some?
    ensures var so := NextTry(m, start).value;
            var eo := Longest(m, so, m.x.end);
            && start <= so <= m.x.end && eo.Some? && so <= eo.value <= m.x.end
            && var t := Shorter(m, fuel, so, eo.value, s);
            && (Retried(m, fuel, start, s).status == Stuck <==>
                t.0.NoMatch? && (so == m.x.end || Retried(m, fuel, so + 1, t.2).status == Stuck))
  {
    hide Scannable, FirstEnd, LastCold, FirstStart, Longest, Shorter;
    NextTryIs(m, start);
  }

  /** The search is stuck if and only if every place that is tried before the end of the text is a
      false alarm and the empty match there is refused. */
  lemma {:induction false} StuckIff(m: Segment, fuel: nat, start: int, s: Store)
    requires m.Valid() && m.x.begin <= start <= m.x.end
    ensures Retried(m, fuel, start, s).status == Stuck <==> RefusedAtEnd(m, fuel, start, s)
    decreases m.x.end - start
  {
    hide Scannable, FirstEnd, LastCold, FirstStart, NextTry, Longest, Shorter;
    NextTryIs(m, start);
    if NextTry(m, start).Some? {
      OneTurn(m, fuel, start, s);
      var so := NextTry(m, start).value;
      var eo := Longest(m, so, m.x.end).value;
      var t := Shorter(m, fuel, so, eo, s);
      if so == m.x.end {
        AtEndOnly(m, fuel, s);
        assert RefusedAtEnd(m, fuel, start, s) <==> Refuses(m, fuel, s) by {
          if Refuses(m, fuel, s) { assert Tries(m, fuel, start, s, m.x.end, s); }
        }
      } else {
        StuckBehind(m, fuel, start, s, so, t);
        if t.0.NoMatch? { StuckIff(m, fuel, so + 1, t.2); }
      }
    } else {
      NoTryNotStuck(m, fuel, start, s);
    }
  }

  lemma NoTryNotStuck(m: Segment, fuel: nat, start: int, s: Store)
    requires m.Valid() && FirstEnd(m, start, start, m.x.end).None?
    ensures Retried(m, fuel, start, s).status != Stuck
  {
  }

  lemma AtEndOnly(m: Segment, fuel: nat, s: Store)
    ensures Shorter(m, fuel, m.x.end, m.x.end, s).0.NoMatch? <==> Refuses(m, fuel, s)
  {
    hide Backtrack;
  }

  lemma StuckBehind(m: Segment, fuel: nat, start: int, s: Store, so: int, t: (Outcome, int, Store))
    requires m.Valid() && NextTry(m, start) == Some(so) && start <= so < m.x.end
    requires Longest(m, so, m.x.end).Some?
    requires t == Shorter(m, fuel, so, Longest(m, so, m.x.end).value, s)
    ensures RefusedAtEnd(m, fuel, start, s) <==> t.0.NoMatch? && RefusedAtEnd(m, fuel, so + 1, t.2)
  {
    hide Scannable, NextTry, Longest, Shorter, Refuses;
    if t.0.NoMatch? && RefusedAtEnd(m, fuel, so + 1, t.2) {
      var s' :| Tries(m, fuel, so + 1, t.2, m.x.end, s') && Refuses(m, fuel, s');
      assert Tries(m, fuel, start, s, m.x.end, s');
    }
    if RefusedAtEnd(m, fuel, start, s) {
      var s' :| Tries(m, fuel, start, s, m.x.end, s') && Refuses(m, fuel, s');
      assert Tries(m, fuel, so + 1, t.2, m.x.end, s');
    }
  }

  /** The same for the answer: there must be back references. */
  lemma AnswersStuckIff(m: Segment, re: Re, fuel: nat, nmatch: nat, given: seq<RegMatch>)
    requires m.Valid() && nmatch <= |given|
    ensures Answer(m, re, fuel, nmatch, given).0 == Stuck <==>
            m.g.backrefs && RefusedAtEnd(m, fuel, m.x.begin, Blank(m.g))
  {
    hide Scannable, Retried, Report, Blank, RefusedAtEnd;
    if m.g.backrefs { StuckIff(m, fuel, m.x.begin, Blank(m.g)); }
  }

  // ----- how it comes about -----

  lemma StartsAtLine(g: Guts, x: Subject, t: Re, i: int, j: int)
    requires Matches(g, x, Then(One(Bol), t), i, j)
    ensures AtBol(g, x, i)
  {
    var k := ThenSplits(g, x, One(Bol), t, i, j);
  }

  /** step() takes the end of a text that ends with a newline for the beginning of a line, backref()
      does not.  If no line begins before it, an expression that begins with an anchor and may then be
      empty is stuck, whatever the fuel. */
  lemma LineAtEnd(m: Segment, t: Re, fuel: nat, s: Store)
    requires m.Codes(Then(One(Bol), t)) && m.Valid() && m.Exact() && m.x.begin < m.x.end && fuel > 0
    requires AtBol(m.g, m.x, m.x.end) && Matches(m.g, m.x, t, m.x.end, m.x.end)
    requires forall i | m.x.begin <= i < m.x.end :: !AtBol(m.g, m.x, i)
    ensures Retried(m, fuel, m.x.begin, s).status == Stuck
  {
    hide Scannable, LastCold, Matches, Accepts, EnoughRounds;
    var re := Then(One(Bol), t);
    var end := m.x.end;
    ThenMatches(m.g, m.x, One(Bol), t, end, end, end);
    FirstEndIsFirst(m, m.x.begin, m.x.begin, end);
    AcceptsLanguage(m, re, end, end);
    assert SomeEnds(m, m.x.begin, end);
    NextTryIs(m, m.x.begin);
    var so := NextTry(m, m.x.begin).value;
    LongestIsAMatch(m, re, so, end);
    StartsAtLine(m.g, m.x, t, so, Longest(m, so, end).value);
    OneTurn(m, fuel, m.x.begin, s);
    AtEndOnly(m, fuel, s);
    AnchorFails(m.g, m.x, m.lo, t, m.hi);
  }

  lemma AnchorFails(g: Guts, x: Subject, lo: int, t: Re, hi: int)
    requires Holds(g.strip, lo, Then(One(Bol), t)) && lo < hi && x.begin < x.end
    ensures EasyWay(g, x, x.end, x.end, lo, hi) == Fails
  {
  }

  /** An expression `^t`, compiled to match in lines, on a text that is a newline, of which the caller
      says that no line begins in front. */
  ghost function Line(large: bool, t: Re): Segment {
    var re := Then(One(Bol), t);
    Segment(Assembled(re, 1, true, [], true, ""), Subject("\n", 0, 1, true, false), 1, 1 + Len(re), large)
  }

  lemma LineIsWhole(large: bool, t: Re)
    requires Numbered(t, 2)
    ensures Whole(Line(large, t), Then(One(Bol), t)) && Line(large, t).g.backrefs && Line(large, t).g.newline
    ensures Line(large, t).Codes(Then(One(Bol), t)) && Line(large, t).Valid() && Line(large, t).Exact()
  {
    hide Compiled;
    AssembledIsCompiled(Then(One(Bol), t), 1, true, [], true, "");
    WholeIsPlaced(Line(large, t), Then(One(Bol), t));
  }

  /** There the search runs off the text, whatever else the expression asks for, if it may be empty. */
  lemma NewlineAlone(large: bool, t: Re, fuel: nat, nmatch: nat, given: seq<RegMatch>)
    requires Numbered(t, 2) && Line(large, t).Valid() && Matches(Line(large, t).g, Line(large, t).x, t, 1, 1)
    requires fuel > 0 && nmatch <= |given|
    ensures Whole(Line(large, t), Then(One(Bol), t)) && Answer(Line(large, t), Then(One(Bol), t), fuel, nmatch, given).0 == Stuck
  {
    LineIsWhole(large, t);
    hide Compiled, Assembled, Retried, Scannable, Matches;
    var m := Line(large, t);
    assert m.x.text[0] == '\n';
    LineAtEnd(m, t, fuel, Blank(m.g));
  }

  function ManyA(): Re {
    Then(Starred(Then(One(Chr('a')), End(4)), 5), End(5))
  }

  /** What follows the anchor in `^\(a*\)\1`. */
  function Behind(): Re {
    Then(Bracket(Group(1), ManyA()), Then(Bracket(Kind.Back(1), ManyA()), End(9)))
  }

  lemma BehindMatches(g: Guts, x: Subject, i: int)
    ensures Matches(g, x, Behind(), i, i)
  {
    var many := ManyA();
    ThenMatches(g, x, Starred(Then(One(Chr('a')), End(4)), 5), End(5), i, i, i);
    hide ManyA;
    ThenMatches(g, x, Bracket(Kind.Back(1), many), End(9), i, i, i);
    ThenMatches(g, x, Bracket(Group(1), many), Then(Bracket(Kind.Back(1), many), End(9)), i, i, i);
  }

  lemma BehindNumbered()
    ensures Numbered(Behind(), 2)
  {
    assert Numbered(ManyA(), 2) && !HasBack(ManyA(), 1);
    hide ManyA;
  }

  /** For example `^\(a*\)\1`. */
  lemma DoubledIsStuck(large: bool, fuel: nat, nmatch: nat, given: seq<RegMatch>)
    requires fuel > 0 && nmatch <= |given| && Line(large, Behind()).Valid()
    ensures Answer(Line(large, Behind()), Then(One(Bol), Behind()), fuel, nmatch, given).0 == Stuck
  {
    hide Behind, Line, Answer, Matches, Whole;
    BehindNumbered();
    BehindMatches(Line(large, Behind()).g, Line(large, Behind()).x, 1);
    NewlineAlone(large, Behind(), fuel, nmatch, given);
  }
}
