/** Why what backref() finds need not be a run to the stop state when the strip has choices: the end of
    the branch is passed as the stop state, so a branch that reaches the end of the text is taken for a
    match of everything behind it.  `\(ab\)\{0,1\}\(ab\)\(c*\)\3` on "ab". */
module BranchStops {
  import opened Strip
  import opened Regex
  import opened Running
  import opened Boundary
  import opened AnchorCounts
  import opened Leftmost
  import opened Captures
  import opened BackNumbers
  import opened Backtracking
  import opened Building
  import opened BackRuns
  import opened Matching
  import opened Assembly
  import opened Promises

  function AB(src: nat): Re {
    Then(One(Chr('a')), Then(One(Chr('b')), End(src)))
  }

  function ManyC(src: nat): Re {
    Then(Starred(Then(One(Chr('c')), End(20)), 21), End(src))
  }

  function Optional(): Re {
    Then(Bracket(Group(1), AB(4)), End(6))
  }

  function Behind(): Re {
    Then(Bracket(Group(2), AB(16)), Then(Bracket(Group(3), ManyC(22)), Then(Bracket(Kind.Back(3), ManyC(22)), End(26))))
  }

  function Pattern(): Re {
    Then(Choice(Optional(), Last(End(13))), Behind())
  }

  function Code(i: nat): Op {
    if i == 1 then OCH_(6) else if i == 2 then OLPAREN(1) else if i == 3 || i == 10 then OCHAR('a')
    else if i == 4 || i == 11 then OCHAR('b') else if i == 5 then ORPAREN(1) else if i == 6 then OOR1(5)
    else if i == 7 then OOR2(1) else if i == 8 then O_CH(2) else if i == 9 then OLPAREN(2) else if i == 12 then ORPAREN(2)
    else if i == 13 then OLPAREN(3) else if i == 14 || i == 21 then OQUEST_(4) else if i == 15 || i == 22 then OPLUS_(2)
    else if i == 16 || i == 23 then OCHAR('c') else if i == 17 || i == 24 then O_PLUS(2)
    else if i == 18 || i == 25 then O_QUEST(4) else if i == 19 then ORPAREN(3) else if i == 20 then OBACK_(3)
    else if i == 26 then O_BACK(3) else OEND
  }

  function Optionally(): Guts {
    Guts(seq(28, i requires 0 <= i < 28 => Code(i)), [], false, false, 0, 27, 0, 0, "ab", 3, true, 1)
  }

  function Text(): Subject {
    Subject("ab", 0, 2, false, false)
  }

  function All(large: bool): Segment {
    Segment(Optionally(), Text(), 1, 27, large)
  }

  // ----- the strip is the pattern's -----

  lemma ABCode(s: seq<Op>, pc: int, src: nat)
    requires 0 <= pc <= |s| - 2 && s[pc] == OCHAR('a') && s[pc + 1] == OCHAR('b')
    ensures Holds(s, pc, AB(src)) && Len(AB(src)) == 2
  {
    hide Holds, Len;
    EndCode(s, pc + 2, src);
    AtomCode(s, pc + 1, Chr('b'), End(src));
    AtomCode(s, pc, Chr('a'), Then(One(Chr('b')), End(src)));
  }

  lemma ManyCCode(s: seq<Op>, pc: int, src: nat)
    requires 0 <= pc <= |s| - 5 && s[pc] == OQUEST_(4) && s[pc + 1] == OPLUS_(2) && s[pc + 2] == OCHAR('c')
    requires s[pc + 3] == O_PLUS(2) && s[pc + 4] == O_QUEST(4)
    ensures Holds(s, pc, ManyC(src)) && Len(ManyC(src)) == 5
  {
    hide Holds, Len;
    EndCode(s, pc + 3, 20);
    EndCode(s, pc + 5, src);
    AtomCode(s, pc + 2, Chr('c'), End(20));
    StarCode(s, pc, Then(One(Chr('c')), End(20)), 21, End(src));
  }

  lemma BehindCode(s: seq<Op>)
    requires |s| == 28 && forall i | 0 <= i < 28 :: s[i] == Code(i)
    ensures Holds(s, 9, Behind()) && Len(Behind()) == 18
  {
    hide Holds, Len, AB, ManyC;
    ABCode(s, 10, 16);
    ManyCCode(s, 14, 22);
    ManyCCode(s, 21, 22);
    EndCode(s, 27, 26);
    BracketCode(s, 20, Kind.Back(3), ManyC(22), End(26));
    BracketCode(s, 13, Group(3), ManyC(22), Then(Bracket(Kind.Back(3), ManyC(22)), End(26)));
    BracketCode(s, 9, Group(2), AB(16), Then(Bracket(Group(3), ManyC(22)), Then(Bracket(Kind.Back(3), ManyC(22)), End(26))));
  }

  lemma PatternCode(s: seq<Op>)
    requires |s| == 28 && forall i | 0 <= i < 28 :: s[i] == Code(i)
    ensures Holds(s, 1, Pattern()) && Len(Pattern()) == 26
  {
    hide Holds, Len, AB, Behind;
    ABCode(s, 3, 4);
    EndCode(s, 6, 6);
    EndCode(s, 8, 13);
    BracketCode(s, 2, Group(1), AB(4), End(6));
    BehindCode(s);
    ChoiceCode(s, 1, Optional(), End(13), Behind());
  }

  lemma PatternIsWhole(large: bool)
    ensures Whole(All(large), Pattern()) && All(large).Valid()
  {
    hide Holds, Len, Pattern, Nesting, Numbered, Compiled;
    PatternCode(Optionally().strip);
    NestingIsOne();
    OnlyEnds();
    LaidIsCompiled(Optionally(), Pattern());
    CodesValid(All(large), Pattern());
  }

  lemma OnlyEnds()
    ensures Code(0) == OEND && Code(27) == OEND
  {
  }

  lemma NestingIsOne()
    ensures Nesting(Pattern()) == 1 && Numbered(Pattern(), 4)
  {
    assert Nesting(ManyC(22)) == 1 && Numbered(ManyC(22), 4) && !HasBack(ManyC(22), 3);
    assert Nesting(AB(4)) == 0 && Nesting(AB(16)) == 0 && Numbered(AB(4), 4) && Numbered(AB(16), 4);
    hide AB, ManyC;
    assert Nesting(Optional()) == 0 && Numbered(Optional(), 4);
    assert Nesting(Behind()) == 1 && Numbered(Behind(), 4);
    hide Optional, Behind;
  }

  // ----- what the matcher does with it -----

  /** No operator that takes a character leads to a state of a fresh start. */
  lemma NothingMasked(large: bool)
    requires All(large).Valid()
    ensures Unmasked(All(large))
  {
    var g := Optionally();
    var c := {1, 2, 3, 7, 8, 9, 10};
    assert ChoiceEnd(g, 8) == 8;
    forall p | p in c && 1 <= p < 27 ensures ClosedAt(g, NOTHING, c, p) {
    }
    CloseIsLeast(g, 1, 27, NOTHING, {1}, c);
    forall p | 1 <= p < 27 && TakesChars(g.strip[p]) ensures p + 1 !in c {
      assert g.strip[p] == Code(p);
    }
  }

  lemma ABMatches(src: nat)
    ensures Matches(Optionally(), Text(), AB(src), 0, 2)
  {
    var g, x := Optionally(), Text();
    ThenMatches(g, x, One(Chr('b')), End(src), 1, 2, 2);
    ThenMatches(g, x, One(Chr('a')), Then(One(Chr('b')), End(src)), 0, 1, 2);
  }

  lemma AllMatches()
    ensures Matches(Optionally(), Text(), Pattern(), 0, 2)
  {
    var g, x := Optionally(), Text();
    var many := ManyC(22);
    ABMatches(16);
    ThenMatches(g, x, Starred(Then(One(Chr('c')), End(20)), 21), End(22), 2, 2, 2);
    hide AB, ManyC;
    var back := Then(Bracket(Kind.Back(3), many), End(26));
    ThenMatches(g, x, Bracket(Kind.Back(3), many), End(26), 2, 2, 2);
    ThenMatches(g, x, Bracket(Group(3), many), back, 2, 2, 2);
    ThenMatches(g, x, Bracket(Group(2), AB(16)), Then(Bracket(Group(3), many), back), 0, 2, 2);
    ThenMatches(g, x, Choice(Optional(), Last(End(13))), Behind(), 0, 0, 2);
  }

  /** The sub-matches that backref() leaves: the second and the third group are unset. */
  function Found(): Store {
    Store([Unset, RegMatch(0, 2), Unset, Unset], [-1, -1])
  }

  function Empty(): Store {
    Store([Unset, Unset, Unset, Unset], [-1, -1])
  }

  lemma Finds(fuel: nat)
    requires fuel >= 4
    ensures Backtrack(Optionally(), Text(), fuel, 0, 2, 1, 27, 0, Empty()) == (Done(2), Found())
  {
    var g, x := Optionally(), Text();
    var s1 := Store([Unset, RegMatch(0, -1), Unset, Unset], [-1, -1]);
    assert Backtrack(g, x, fuel - 3, 2, 2, 6, 6, 0, Found()) == (Done(2), Found());
    assert EasyWay(g, x, 2, 2, 5, 6) == Choose(5, 2);
    assert EasyWay(g, x, 1, 2, 4, 6) == Choose(5, 2);
    assert EasyWay(g, x, 0, 2, 3, 6) == Choose(5, 2);
    assert SetEnd(s1.pm, 1, 2) == Found().pm;
    assert Backtrack(g, x, fuel - 2, 0, 2, 3, 6, 0, s1) == (Done(2), Found());
    assert SetStart(Empty().pm, 1, 0) == s1.pm;
    assert Chosen(g, x, fuel - 1, 0, 2, 2, 6, 0, Empty()) == (Done(2), Found());
    assert EasyWay(g, x, 0, 2, 2, 6) == Choose(2, 0);
    assert Branches(g, x, fuel - 1, 0, 2, 2, 6, 0, Empty()) == (Done(2), Found());
    assert EasyWay(g, x, 0, 2, 1, 27) == Choose(1, 0);
  }

  /** The search, once the backtracker is asked, with what it is asked. */
  lemma NoAnchors(large: bool)
    ensures EnoughRounds(large, Optionally())
  {
    var s := Optionally().strip;
    forall p | 0 <= p < 28 ensures !s[p].OBOL? && !s[p].OEOL? { assert s[p] == Code(p); }
    NoneIsEnough(large, Optionally());
  }

  lemma Asked(large: bool, fuel: nat)
    requires fuel >= 4 && All(large).Valid()
    ensures var m := All(large);
            && m.x.begin == 0 && m.x.end == 2 && m.g.nsub == 3 && m.g.backrefs && m.Exact() && Unmasked(m)
            && Matches(m.g, m.x, Pattern(), m.x.begin, m.x.end)
            && Backtrack(m.g, m.x, fuel, m.x.begin, m.x.end, m.lo, m.hi, 0, Blank(m.g)) == (Done(m.x.end), Found())
  {
    hide Backtrack, Pattern, Unmasked, Matches, Scannable, EnoughRounds;
    NoAnchors(large);
    NothingMasked(large);
    AllMatches();
    assert Blank(All(large).g) == Empty();
    Finds(fuel);
  }

  /** The caller's table: the first group is set, the others are not. */
  function Reported(): seq<RegMatch> {
    [RegMatch(0, 2), RegMatch(0, 2), Unset, Unset]
  }

  lemma Reports(m: Segment, given: seq<RegMatch>)
    requires |given| == 4 && m.g.nsub == 3
    ensures Report(m.g, 4, given, 0, 2, Found().pm) == Reported()
  {
  }

  /** regexec() answers that "ab" matches, with the second group unset, which is no option of the
      pattern. */
  lemma ReportsUnset(large: bool, fuel: nat, given: seq<RegMatch>)
    requires fuel >= 4 && |given| == 4 && All(large).Valid()
    ensures Answer(All(large), Pattern(), fuel, 4, given) == (Success, Reported())
  {
    hide Backtrack, Pattern, Scannable, EnoughRounds, Answer, Report, Compiled, Whole, Unmasked, Matches, All, Found, Reported, Blank;
    PatternIsWhole(large);
    Asked(large, fuel);
    FoundFits();
    AnswersFound(All(large), Pattern(), fuel, 4, given, Found());
    Reports(All(large), given);
  }

  lemma FoundFits()
    ensures |Found().pm| == 4
  {
  }

  // ----- no run does that -----

  ghost predicate Inv(c: Config) {
    c.sp >= 0 && |c.pm| == 4 && 1 <= c.pc <= 27 && (c.pc >= 13 ==> c.pm[2].eo != -1)
  }

  lemma MoveKeeps(a: Config, b: Config)
    requires Inv(a) && Moves(Optionally(), Text(), a, b)
    ensures Inv(b)
  {
    hide OpTakes, TakesCopy, ChoiceEnd, NextBack, Text;
    MovesForward(Optionally(), Text(), a, b);
    var g := Optionally();
    assert g.strip[a.pc] == Code(a.pc);
    if a.pc == 6 { EndAt8(); }
    if a.pc == 20 { BackAt26(); }
  }

  lemma EndAt8()
    ensures ChoiceEnd(Optionally(), 7) == 8
  {
    assert ChoiceEnd(Optionally(), 8) == 8;
  }

  lemma BackAt26()
    ensures NextBack(Optionally(), 20, 3) == 26
  {
    NextBackAt(Optionally(), 20, 3, 26);
  }

  lemma {:induction false} RunKeeps(n: nat, a: Config, b: Config)
    requires Inv(a) && RunsIn(Optionally(), Text(), n, a, b)
    ensures Inv(b)
    decreases n
  {
    hide Inv, Moves;
    if n > 0 {
      var c :| Moves(Optionally(), Text(), a, c) && RunsIn(Optionally(), Text(), n - 1, c, b);
      MoveKeeps(a, c);
      RunKeeps(n - 1, c, b);
    }
  }

  /** No run through the pattern leaves the sub-matches as they are reported. */
  lemma NoSuchRun()
    ensures !Runs(Optionally(), Text(), Config(1, 0, Empty().pm), Config(27, 2, Found().pm))
  {
    hide Moves;
    var a, b := Config(1, 0, Empty().pm), Config(27, 2, Found().pm);
    if Runs(Optionally(), Text(), a, b) {
      var n: nat :| RunsIn(Optionally(), Text(), n, a, b);
      RunKeeps(n, a, b);
      assert false;
    }
  }
}
