/** A match that is reported too far to the right: `(a*|b)c` on "bc".  The state behind the `b` is
    one that a fresh start holds as well, so at the `c` fast() takes the scan for a cold one. */
module LateStart {
  import opened Strip
  import opened Regex
  import opened Running
  import opened Boundary
  import opened AnchorCounts
  import opened Options
  import opened FastScan
  import opened Leftmost
  import opened Building

  function OneA(): Re {
    Then(One(Chr('a')), End(2))
  }

  function ManyA(): Re {
    Then(Starred(OneA(), 3), End(3))
  }

  function OneB(): Re {
    Then(One(Chr('b')), End(5))
  }

  function OneC(): Re {
    Then(One(Chr('c')), End(7))
  }

  function Either(): Re {
    Then(Choice(ManyA(), Last(OneB())), End(5))
  }

  function Pattern(): Re {
    Then(Bracket(Group(1), Either()), OneC())
  }

  function OpAt(i: nat): Op {
    if i == 1 then OLPAREN(1) else if i == 2 then OCH_(7) else if i == 3 then OQUEST_(4) else if i == 4 then OPLUS_(2)
    else if i == 5 then OCHAR('a') else if i == 6 then O_PLUS(2) else if i == 7 then O_QUEST(4) else if i == 8 then OOR1(6)
    else if i == 9 then OOR2(2) else if i == 10 then OCHAR('b') else if i == 11 then O_CH(3) else if i == 12 then ORPAREN(1)
    else if i == 13 then OCHAR('c') else OEND
  }

  function Code(): seq<Op> {
    seq(15, i requires 0 <= i < 15 => OpAt(i))
  }

  function Masking(): Guts {
    Guts(Code(), [], false, false, 0, 14, 0, 0, "c", 1, false, 1)
  }

  function Text(): Subject {
    Subject("bc", 0, 2, false, false)
  }

  function Whole(large: bool): Segment {
    Segment(Masking(), Text(), 1, 14, large)
  }

  lemma EitherCode(s: seq<Op>)
    requires |s| == 15 && forall i | 0 <= i < 15 :: s[i] == OpAt(i)
    ensures Holds(s, 2, Either()) && Len(Either()) == 10
  {
    hide Holds, Len;
    EndCode(s, 6, 2);
    EndCode(s, 8, 3);
    EndCode(s, 11, 5);
    EndCode(s, 12, 5);
    AtomCode(s, 5, Chr('a'), End(2));
    StarCode(s, 3, OneA(), 3, End(3));
    AtomCode(s, 10, Chr('b'), End(5));
    ChoiceCode(s, 2, ManyA(), OneB(), End(5));
  }

  lemma CodeHolds(large: bool)
    ensures Whole(large).Codes(Pattern()) && Whole(large).Valid()
  {
    hide Either, Holds, Len;
    var s := Code();
    EitherCode(s);
    EndCode(s, 14, 7);
    AtomCode(s, 13, Chr('c'), End(7));
    BracketCode(s, 1, Group(1), Either(), OneC());
    CodesValid(Whole(large), Pattern());
  }

  /** The state behind the `b` is reached without any character. */
  lemma Masked(large: bool)
    requires Whole(large).Valid()
    ensures 11 in FreshStates(Whole(large))
  {
    var g := Masking();
    var f := Close(g, 1, 14, NOTHING, {1});
    CloseIsClosed(g, 1, 14, NOTHING, {1});
    assert ClosedAt(g, NOTHING, f, 1) && EmptyEdge(g, 1, 2);
    assert ClosedAt(g, NOTHING, f, 2) && EmptyEdge(g, 2, 3);
    assert ClosedAt(g, NOTHING, f, 3) && EmptyEdge(g, 3, 7);
    assert ClosedAt(g, NOTHING, f, 7) && EmptyEdge(g, 7, 8);
    assert ClosedAt(g, NOTHING, f, 8) && EmptyEdge(g, 8, 11);
  }

  lemma LooksCold(large: bool)
    requires Whole(large).Valid()
    ensures Cold(Whole(large), 0, 1)
  {
    hide Scannable, Close;
    var m := Whole(large);
    var took := m.Took(0, m.Sweep(0, 0));
    Masked(large);
    TookInside(m, 0, m.Sweep(0, 0));
    assert took <= {11} by { TookB(large, m.Sweep(0, 0)); }
    CloseIsClosed(m.g, m.lo, m.hi, NOTHING, {m.lo});
    CloseIsLeast(m.g, m.lo, m.hi, NOTHING, {m.lo} + took, FreshStates(m));
    CloseMonotone(m.g, m.lo, m.hi, NOTHING, {m.lo}, {m.lo} + took);
  }

  lemma TookB(large: bool, s: set<int>)
    requires Whole(large).Valid()
    ensures Whole(large).Took(0, s) <= {11}
  {
    var c := Code();
    forall p | 1 <= p < 14 && c[p] == OCHAR('b') ensures p == 10 {
    }
  }

  lemma NoAnchors(large: bool)
    ensures EnoughRounds(large, Masking())
  {
    forall p | 0 <= p < 15 ensures !Code()[p].OBOL? && !Code()[p].OEOL? { assert Code()[p] == OpAt(p); }
    NoneIsEnough(large, Masking());
  }

  lemma AllMatches()
    ensures Matches(Masking(), Text(), Pattern(), 0, 2)
  {
    var g, x := Masking(), Text();
    ThenMatches(g, x, One(Chr('b')), End(5), 0, 1, 1);
    ThenMatches(g, x, Choice(ManyA(), Last(OneB())), End(5), 0, 1, 1);
    ThenMatches(g, x, One(Chr('c')), End(7), 1, 2, 2);
    ThenMatches(g, x, Bracket(Group(1), Either()), OneC(), 0, 1, 2);
  }

  lemma EndsBehindC(e: int)
    requires SomeMatchEnds(Masking(), Text(), Pattern(), 0, e)
    ensures e >= 1
  {
    var g, x := Masking(), Text();
    var i :| 0 <= i <= e && Matches(g, x, Pattern(), i, e);
    var k := ThenSplits(g, x, Bracket(Group(1), Either()), OneC(), i, e);
    NodeBounds(g, x, Bracket(Group(1), Either()), i, k);
    var j := ThenSplits(g, x, One(Chr('c')), End(7), k, e);
  }

  /** All of "bc" matches, but the search for the start begins behind the `b`. */
  lemma ReportsTooLate(large: bool)
    ensures var m := Whole(large);
            && m.Codes(Pattern()) && m.Valid() && Matches(m.g, m.x, Pattern(), 0, 2)
            && var e := FirstEnd(m, 0, 0, 2);
            && e.Some? && FirstStart(m, LastCold(m, 0, e.value), 2) != Some(0)
  {
    hide Scannable, Cold, Matches, Accepts, EnoughRounds, Pattern, Code;
    var m, re := Whole(large), Pattern();
    CodeHolds(large);
    NoAnchors(large);
    AllMatches();
    LooksCold(large);
    AcceptsLanguage(m, re, 0, 2);
    FirstEndIsFirst(m, 0, 0, 2);
    assert SomeEnds(m, 0, 2);
    EndsAreMatches(m, re, 0, FirstEnd(m, 0, 0, 2).value);
    EndsBehindC(FirstEnd(m, 0, 0, 2).value);
    FirstStartIsFirst(m, 0, 2);
    LeftmostIff(m, 0, 2);
  }
}
