/** What becomes of a boundary when anchors go uncounted.  regcomp() counts the anchors that it parses,
    not the copies that a repetition makes of them: `(^){2}` and `(^a){2}` have two OBOL operators and
    nbol == 1.  The first is too much for the rounds of the small build, the second is not. */
module Recount {
  import opened Strip
  import opened Regex
  import opened Running
  import opened Stepping
  import opened Boundary
  import opened AnchorCounts
  import opened FastScan
  import opened Captures
  import opened Dissection
  import opened Matching
  import opened BackNumbers
  import opened Assembly
  import opened Promises

  function Anchor(i: nat): Re {
    Then(One(Bol), End(i))
  }

  function Second(): Re {
    Then(Bracket(Group(1), Anchor(2)), End(6))
  }

  function Pattern(): Re {
    Then(Bracket(Group(1), Anchor(2)), Second())
  }

  function TwoAnchors(): Guts {
    Guts([OEND, OLPAREN(1), OBOL, ORPAREN(1), OLPAREN(1), OBOL, ORPAREN(1), OEND],
         [], false, false, 0, 7, 1, 0, "", 1, false, 0)
  }

  function Text(): Subject {
    Subject("", 0, 0, false, false)
  }

  function All(large: bool): Segment {
    Segment(TwoAnchors(), Text(), 1, 7, large)
  }

  lemma CodeHolds(large: bool)
    ensures All(large).Codes(Pattern()) && All(large).Valid()
  {
    var s := TwoAnchors().strip;
    assert Framed(s, 1, OLPAREN(1), Anchor(2), ORPAREN(1));
    assert Framed(s, 4, OLPAREN(1), Anchor(2), ORPAREN(1));
    assert Holds(s, 4, Second());
    assert Holds(s, 1, Pattern());
    CodesValid(All(large), Pattern());
  }

  lemma PatternMatches()
    ensures Matches(TwoAnchors(), Text(), Pattern(), 0, 0)
  {
    var g, x := TwoAnchors(), Text();
    ThenMatches(g, x, One(Bol), End(2), 0, 0, 0);
    ThenMatches(g, x, Bracket(Group(1), Anchor(2)), End(6), 0, 0, 0);
    ThenMatches(g, x, Bracket(Group(1), Anchor(2)), Second(), 0, 0, 0);
  }

  lemma ReachedClosed(n: int)
    requires n == 2 || n == 5
    ensures Closed(TwoAnchors(), 1, 7, NOTHING, if n == 2 then {1, 2} else {1, 2, 3, 4, 5})
  {
    var g := TwoAnchors();
    var c := if n == 2 then {1, 2} else {1, 2, 3, 4, 5};
    forall p | p in c && 1 <= p < 7 ensures ClosedAt(g, NOTHING, c, p) {
      assert p == 1 || p == 2 || p == 3 || p == 4 || p == 5;
    }
  }

  /** One round by value gets past one anchor only. */
  lemma ByValueStops(s: set<int>)
    requires Scannable(TwoAnchors(), 1, 7) && s == Close(TwoAnchors(), 1, 7, NOTHING, {1})
    ensures 7 !in Stepped(TwoAnchors(), 1, 7, false, BOLEOL, s, s)
  {
    hide Closed, Close, Scannable;
    var g := TwoAnchors();
    ReachedClosed(2);
    CloseIsLeast(g, 1, 7, NOTHING, {1}, {1, 2});
    var c := {1, 2, 3, 4, 5};
    assert s + Shift(g, 1, 7, BOLEOL, s) <= c;
    ReachedClosed(5);
    CloseIsLeast(g, 1, 7, NOTHING, s + Shift(g, 1, 7, BOLEOL, s), c);
  }

  lemma AliasedGoesOn(s: set<int>)
    requires Scannable(TwoAnchors(), 1, 7) && s == Close(TwoAnchors(), 1, 7, NOTHING, {1})
    ensures 7 in Stepped(TwoAnchors(), 1, 7, true, BOLEOL, s, s)
  {
    var g := TwoAnchors();
    CloseIsClosed(g, 1, 7, NOTHING, {1});
    var c := Close(g, 1, 7, BOLEOL, s);
    CloseIsClosed(g, 1, 7, BOLEOL, s);
    assert ClosedAt(g, BOLEOL, c, 1) && EmptyEdge(g, 1, 2);
    assert ClosedAt(g, BOLEOL, c, 2) && Consumes(g, g.strip[2], BOLEOL);
    assert ClosedAt(g, BOLEOL, c, 3) && EmptyEdge(g, 3, 4);
    assert ClosedAt(g, BOLEOL, c, 4) && EmptyEdge(g, 4, 5);
    assert ClosedAt(g, BOLEOL, c, 5) && Consumes(g, g.strip[5], BOLEOL);
    assert ClosedAt(g, BOLEOL, c, 6) && EmptyEdge(g, 6, 7);
  }

  /** The empty text matches, but after the nbol + neol rounds of the small build the end is not
      among the states; in the large build it is. */
  lemma SmallBuildMisses()
    ensures Scannable(TwoAnchors(), 1, 7) && Matches(TwoAnchors(), Text(), Pattern(), 0, 0)
    ensures FlagAt(TwoAnchors(), Text(), 0) == BOLEOL && Rounds(TwoAnchors(), BOLEOL) == 1
    ensures var s := Close(TwoAnchors(), 1, 7, NOTHING, {1});
            && 7 !in Rounded(TwoAnchors(), 1, 7, false, BOLEOL, s, 1)
            && 7 in Rounded(TwoAnchors(), 1, 7, true, BOLEOL, s, 1)
  {
    CodeHolds(true);
    hide Close, Scannable, Stepped, Matches;
    var s := Close(TwoAnchors(), 1, 7, NOTHING, {1});
    PatternMatches();
    ByValueStops(s);
    AliasedGoesOn(s);
    assert Rounded(TwoAnchors(), 1, 7, false, BOLEOL, s, 0) == s == Rounded(TwoAnchors(), 1, 7, true, BOLEOL, s, 0);
  }

  /** So the expression is one for the large build only. */
  lemma OnlyLarge()
    ensures EnoughRounds(true, TwoAnchors()) && !EnoughRounds(false, TwoAnchors())
  {
    hide *;
    UsedAreCounted();
    LargeIsEnough(TwoAnchors());
    SmallBuildMisses();
    NotEnough(TwoAnchors());
  }

  lemma UsedAreCounted()
    ensures UsedIsCounted(TwoAnchors())
  {
  }

  lemma NotEnough(g: Guts)
    requires Scannable(g, 1, 7) && Rounds(g, BOLEOL) == 1
    requires var s := Close(g, 1, 7, NOTHING, {1});
             7 !in Rounded(g, 1, 7, false, BOLEOL, s, 1) && 7 in Rounded(g, 1, 7, true, BOLEOL, s, 1)
    ensures !EnoughRounds(false, g)
  {
    hide Close, OpOk, Stepped, EnoughRounds, Rounded;
    var s := Close(g, 1, 7, NOTHING, {1});
    if EnoughRounds(false, g) {
      CloseIsClosed(g, 1, 7, NOTHING, {1});
      EnoughForAll(false, g, 1, 7, BOLEOL, s);
      RoundsEndIff(g, 1, 7, false, BOLEOL, s, 1);
      RoundedBasics(g, 1, 7, true, BOLEOL, s, 1);
      assert false;
    }
  }

  lemma AllIsPlain(large: bool)
    ensures Plain(All(large), Pattern()) && All(large).Valid()
  {
    CodeHolds(large);
    hide Holds, Compiled, Scannable;
    assert Numbered(Pattern(), 2) && Nesting(Pattern()) == 0 && Fits(Pattern(), 2);
    LaidIsCompiled(TwoAnchors(), Pattern());
  }

  lemma SmallFindsNoEnd()
    requires All(false).Valid()
    ensures FirstEnd(All(false), 0, 0, 0).None?
  {
    hide Scannable, Rounded, Close;
    SmallBuildMisses();
    var m := All(false);
    assert m.Live(0, 0) == m.CrossAt(0, {1});
    assert !Accepts(m, 0, 0);
  }

  /** regexec() says of the empty text that it does not match where the words are used, and that it does
      where the byte vectors are. */
  lemma BuildsDiffer(fuel: nat, nmatch: nat, given: seq<RegMatch>)
    requires nmatch <= |given|
    ensures forall large :: All(large).Valid() && Plain(All(large), Pattern())
    ensures SomeMatch(All(false), Pattern())
    ensures Answer(All(false), Pattern(), fuel, nmatch, given) == (REG_NOMATCH, given)
    ensures Answer(All(true), Pattern(), fuel, nmatch, given).0 == Success
  {
    hide Compiled, Scannable, Matches, Pattern, Answer, EnoughRounds, FirstEnd, Once;
    forall large ensures All(large).Valid() && Plain(All(large), Pattern()) { AllIsPlain(large); }
    PatternMatches();
    assert SomeMatch(All(true), Pattern()) && SomeMatch(All(false), Pattern());
    OnlyLarge();
    SucceedsIffMatch(All(true), Pattern(), fuel, nmatch, given);
    SmallFindsNoEnd();
    AnswerIs(All(false), Pattern(), fuel, nmatch, given);
    OnceFinds(All(false), Pattern(), nmatch);
  }

  // ----- copies that do no harm -----

  function TwoApart(): Guts {
    Guts([OEND, OLPAREN(1), OBOL, OCHAR('a'), ORPAREN(1), OLPAREN(1), OBOL, OCHAR('a'), ORPAREN(1), OEND],
         [], false, true, 0, 9, 1, 0, "a", 1, false, 0)
  }

  /** `(^a){2}`: an anchor goes uncounted, and the rounds suffice in both builds all the same. */
  lemma UncountedIsEnough()
    ensures !CountsAnchors(TwoApart()) && EnoughRounds(false, TwoApart()) && EnoughRounds(true, TwoApart())
  {
    hide EnoughRounds;
    assert BolOps(TwoApart()) == {2, 6};
    ApartIsEnough(TwoApart());
    SmallThenLarge(TwoApart());
  }
}
