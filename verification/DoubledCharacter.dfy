/** The expression `\(.\)\1`: the matcher finds it exactly where a character is followed by itself. */
module DoubledCharacter {
  import opened Strip
  import opened Regex
  import opened Running
  import opened Boundary
  import opened AnchorCounts
  import opened Leftmost
  import opened Captures
  import opened BackNumbers
  import opened TreeRanks
  import opened BackRuns
  import opened Matching
  import opened Building
  import opened Assembly
  import opened Exhaustive
  import opened Decided

  function AnyOne(): Re {
    Then(One(Any), End(0))
  }

  function Again(): Re {
    Then(Bracket(Kind.Back(1), AnyOne()), End(0))
  }

  function Doubled(): Re {
    Then(Bracket(Group(1), AnyOne()), Again())
  }

  function Code(): Guts {
    Guts([OEND, OLPAREN(1), OANY, ORPAREN(1), OBACK_(1), OANY, O_BACK(1), OEND], [], false, false, 0, 7, 0, 0, "", 1, true, 0)
  }

  function In(x: Subject, large: bool): Segment {
    Segment(Code(), x, 1, 7, large)
  }

  lemma CodeHolds()
    ensures Holds(Code().strip, 1, Doubled()) && Len(Doubled()) == 6
  {
    hide Holds, Len;
    var s := Code().strip;
    EndCode(s, 6, 0);
    EndCode(s, 3, 0);
    EndCode(s, 7, 0);
    AtomCode(s, 5, Any, End(0));
    AtomCode(s, 2, Any, End(0));
    BracketCode(s, 4, Kind.Back(1), AnyOne(), End(0));
    BracketCode(s, 1, Group(1), AnyOne(), Again());
  }

  lemma NumbersFit()
    ensures Numbered(Doubled(), 2) && Nesting(Doubled()) == 0 && PlainLoops(Doubled())
  {
    assert Numbered(AnyOne(), 2) && Nesting(AnyOne()) == 0 && PlainLoops(AnyOne()) && !HasBack(AnyOne(), 1);
    hide AnyOne;
    assert Numbered(Again(), 2) && Nesting(Again()) == 0 && PlainLoops(Again());
  }

  lemma IsDecidable(x: Subject, large: bool)
    requires x.Valid()
    ensures var m := In(x, large); Decidable(m, Doubled()) && m.Codes(Doubled()) && m.Valid() && m.Exact()
  {
    hide Holds, Len, Doubled, Nesting, Numbered, PlainLoops, Compiled, EnoughRounds;
    CodeHolds();
    NumbersFit();
    LaidIsCompiled(Code(), Doubled());
    CodesValid(In(x, large), Doubled());
    NoneIsEnough(large, Code());
  }

  lemma NothingMasked(x: Subject, large: bool)
    requires In(x, large).Valid()
    ensures Unmasked(In(x, large))
  {
    var g := Code();
    assert Closed(g, 1, 7, NOTHING, {1, 2}) by {
      forall p | p in {1, 2} && 1 <= p < 7 ensures ClosedAt(g, NOTHING, {1, 2}, p) { }
    }
    CloseIsLeast(g, 1, 7, NOTHING, {1}, {1, 2});
  }

  // ----- its matches and its runs -----

  /** The character at i is followed by itself. */
  predicate Twice(x: Subject, i: int) {
    CharAt(x, i) && CharAt(x, i + 1) && x.text[i] == x.text[i + 1]
  }

  lemma OneMatches(g: Guts, x: Subject, i: int, j: int)
    ensures Matches(g, x, AnyOne(), i, j) <==> j == i + 1 && CharAt(x, i)
  {
    if j == i + 1 && CharAt(x, i) { ThenMatches(g, x, One(Any), End(0), i, j, j); }
    if Matches(g, x, AnyOne(), i, j) { var k := ThenSplits(g, x, One(Any), End(0), i, j); }
  }

  lemma TwoMatch(g: Guts, x: Subject, i: int)
    requires CharAt(x, i) && CharAt(x, i + 1)
    ensures Matches(g, x, Doubled(), i, i + 2)
  {
    OneMatches(g, x, i, i + 1);
    OneMatches(g, x, i + 1, i + 2);
    hide AnyOne;
    ThenMatches(g, x, Bracket(Kind.Back(1), AnyOne()), End(0), i + 1, i + 2, i + 2);
    ThenMatches(g, x, Bracket(Group(1), AnyOne()), Again(), i, i + 1, i + 2);
  }

  lemma RunIsTwice(x: Subject, i: int, j: int, pm: seq<RegMatch>)
    requires |pm| == 2 && Leads(Code(), x, Config(1, i, pm), 7, j)
    ensures j == i + 2 && Twice(x, i)
  {
    hide Leads;
    var g := Code();
    var b := FirstMove(g, x, Config(1, i, pm), 7, j);
    var c := FirstMove(g, x, b, 7, j);
    var d := FirstMove(g, x, c, 7, j);
    assert d.pc == 4 && d.pm[1] == RegMatch(i, i + 1) && d.sp == i + 1;
    var e := FirstMove(g, x, d, 7, j);
    assert Closes(g, 1, 4, 6);
    ClosesOnly(g, 1, 4, 6);
    ClosesOnly(g, 1, 4, e.pc - 1);
    assert x.text[i..i + 1][0] == x.text[i] && x.text[i + 1..i + 2][0] == x.text[i + 1];
    NoMoveFromEnd(g, x, e, 7, j);
  }

  lemma TwiceRuns(x: Subject, i: int, pm: seq<RegMatch>)
    requires |pm| == 2 && Twice(x, i)
    ensures Leads(Code(), x, Config(1, i, pm), 7, i + 2)
  {
    var g := Code();
    var a, b, c := Config(1, i, pm), Config(2, i, SetStart(pm, 1, i)), Config(3, i + 1, SetStart(pm, 1, i));
    var d := Config(4, i + 1, SetEnd(c.pm, 1, i + 1));
    var e := Config(7, i + 2, d.pm);
    ParenMoves(pm, 1, i);
    ParenMoves(c.pm, 1, i + 1);
    assert Moves(g, x, a, b) && Moves(g, x, b, c) && Moves(g, x, c, d);
    assert x.text[i..i + 1] == [x.text[i]];
    assert x.text[i + 1..i + 2] == [x.text[i + 1]];
    assert Closes(g, 1, 4, 6) && TakesCopy(x, d.pm[1], i + 1, i + 2);
    assert Moves(g, x, d, e);
    hide Moves, Runs;
    RunsHere(g, x, e);
    RunsAfter(g, x, d, e, e);
    RunsAfter(g, x, c, d, e);
    RunsAfter(g, x, b, c, e);
    RunsAfter(g, x, a, b, e);
  }

  lemma AgreedIff(x: Subject, large: bool, i: int, j: int)
    requires x.Valid() && x.begin <= i <= j <= x.end
    ensures Agreed(In(x, large), i, j) <==> j == i + 2 && Twice(x, i)
  {
    hide *;
    var m := In(x, large);
    IsDecidable(x, large);
    BlankSizes(m.g, Blank(m.g).pm, Blank(m.g).lastpos);
    InIs(x, large);
    AgreedMeans(m, i, j);
    if Agreed(m, i, j) { RunIsTwice(x, i, j, Blank(m.g).pm); }
    if j == i + 2 && Twice(x, i) {
      TwiceRuns(x, i, Blank(m.g).pm);
      TwoMatch(m.g, x, i);
      AcceptsLanguage(m, Doubled(), i, j);
    }
  }

  lemma InIs(x: Subject, large: bool)
    ensures var m := In(x, large);
            m.g == Code() && m.x == x && m.lo == 1 && m.hi == 7 && m.g.nsub == 1 && m.g.backrefs
    ensures forall i | Twice(x, i) :: CharAt(x, i) && CharAt(x, i + 1) && x.begin <= i && i + 2 <= x.end
    ensures x.Valid() ==> x.begin <= x.end
  {
  }

  lemma AgreedMeans(m: Segment, i: int, j: int)
    ensures Agreed(m, i, j) <==> Accepts(m, i, j) && Leads(m.g, m.x, Config(m.lo, i, Blank(m.g).pm), m.hi, j)
  {
  }

  /** On every text, in both builds: success exactly when some character is followed by itself; the match is
      the first such pair. */
  lemma FindsDoubled(x: Subject, large: bool, fuel: nat, nmatch: nat, given: seq<RegMatch>)
    requires x.Valid() && In(x, large).Valid() && nmatch <= |given| && fuel >= Plenty(Doubled(), x.end - x.begin)
    ensures var a := Answer(In(x, large), Doubled(), fuel, nmatch, given);
            && (a.0 == Success <==> exists i :: x.begin <= i && Twice(x, i))
            && (a.0 == Success && nmatch >= 1 ==>
                  && |a.1| == |given| && a.1[0].eo == a.1[0].so + 2 && Twice(x, a.1[0].so)
                  && forall i | x.begin <= i < a.1[0].so :: !Twice(x, i))
  {
    hide *;
    var m := In(x, large);
    InIs(x, large);
    IsDecidable(x, large);
    NothingMasked(x, large);
    NumbersFit();
    MatcherDecides(m, Doubled(), fuel, nmatch, given);
    forall i, j | x.begin <= i <= j <= x.end ensures Agreed(m, i, j) <==> j == i + 2 && Twice(x, i) { AgreedIff(x, large, i, j); }
    forall i | x.begin <= i && Twice(x, i) ensures Agreed(m, i, i + 2) { AgreedIff(x, large, i, i + 2); }
  }
}
