/** Why backref() needs fuel: `\(a*\)*b\1` on "abaa".  The automaton matches all of it, so
    matcher() calls backref() on it; `lastpos` is not put back when a pass of the loop fails, and
    so the test for an empty pass lets the same empty pass begin again and again.  matcher() then never
    has an answer. */
module Divergence {
  import opened Strip
  import opened Regex
  import opened Options
  import opened Running
  import opened Boundary
  import opened AnchorCounts
  import opened Leftmost
  import opened FastScan
  import opened Captures
  import opened BackNumbers
  import opened Backtracking
  import opened Building
  import opened Matching
  import opened Assembly
  import opened Promises

  function Code(i: nat): Op {
    if i == 1 then OQUEST_(10) else if i == 2 then OPLUS_(8) else if i == 3 then OLPAREN(1)
    else if i == 4 || i == 14 then OQUEST_(4) else if i == 5 || i == 15 then OPLUS_(2)
    else if i == 6 || i == 16 then OCHAR('a') else if i == 7 || i == 17 then O_PLUS(2)
    else if i == 8 || i == 18 then O_QUEST(4) else if i == 9 then ORPAREN(1) else if i == 10 then O_PLUS(8)
    else if i == 11 then O_QUEST(10) else if i == 12 then OCHAR('b') else if i == 13 then OBACK_(1)
    else if i == 19 then O_BACK(1) else OEND
  }

  function Endless(): Guts {
    Guts(seq(21, i requires 0 <= i < 21 => Code(i)), [], false, false, 0, 20, 0, 0, "b", 1, true, 2)
  }

  function Text(): Subject {
    Subject("abaa", 0, 4, false, false)
  }

  function Tries(fuel: nat, sp: int, pc: int, lev: int, s: Store): (Outcome, Store) {
    Backtrack(Endless(), Text(), fuel, sp, 4, pc, 20, lev, s)
  }

  ghost predicate Sized(s: Store) {
    |s.pm| == 2 && |s.lastpos| == 3
  }

  /** No success, and if the search ends, the outer loop counts as entered at `at`. */
  ghost predicate Futile(r: (Outcome, Store), at: int) {
    Sized(r.1) && !r.0.Done? && (r.0.NoMatch? ==> r.1.lastpos[1] == at)
  }

  // ----- one call -----

  lemma Picks(fuel: nat, sp: int, pc: int, lev: int, s: Store, ss: int, q: int)
    requires fuel > 0 && EasyWay(Endless(), Text(), sp, 4, pc, 20) == Choose(ss, q) && 0 <= ss <= 20
    ensures Tries(fuel, sp, pc, lev, s) == Chosen(Endless(), Text(), fuel, q, 4, ss, 20, lev, s)
  {
  }

  lemma Misses(fuel: nat, sp: int, pc: int, lev: int, s: Store)
    requires var w := EasyWay(Endless(), Text(), sp, 4, pc, 20); w.Fails? || (w.Arrives? && w.sp != 4)
    ensures Tries(fuel, sp, pc, lev, s) == (if fuel == 0 then OutOfFuel else NoMatch, s)
  {
  }

  lemma NoFuel(sp: int, pc: int, lev: int, s: Store)
    ensures Tries(0, sp, pc, lev, s) == (OutOfFuel, s)
  {
  }

  /** The operators that are no easy stuff. */
  lemma Stands(sp: int, pc: int)
    requires 0 <= pc < 20 && !IsEasy(Code(pc))
    ensures EasyWay(Endless(), Text(), sp, 4, pc, 20) == Choose(pc, sp) && |Endless().strip| == 21
    ensures Endless().strip[pc] == Code(pc)
  {
    hide Code, IsEasy;
  }

  /** One of those that are. */
  lemma OneEasy(sp: int, pc: int)
    requires 0 <= pc < 20 && IsConsuming(Code(pc))
    ensures var q := EasyMove(Endless(), Text(), Code(pc), sp, 4);
            EasyWay(Endless(), Text(), sp, 4, pc, 20) ==
            if q.None? then Fails else EasyWay(Endless(), Text(), q.value, 4, pc + 1, 20)
  {
    hide Code, EasyMove, Text;
  }

  lemma OneCloser(sp: int, pc: int)
    requires 0 <= pc < 20 && Code(pc).O_QUEST?
    ensures EasyWay(Endless(), Text(), sp, 4, pc, 20) == EasyWay(Endless(), Text(), sp, 4, pc + 1, 20)
  {
    hide Code, Text;
  }

  lemma AtEnd(sp: int)
    ensures EasyWay(Endless(), Text(), sp, 4, 20, 20) == Arrives(sp)
  {
  }

  lemma Goes()
    ensures EasyWay(Endless(), Text(), 1, 4, 8, 20) == Choose(9, 1)
    ensures EasyWay(Endless(), Text(), 0, 4, 6, 20) == Choose(7, 1)
    ensures EasyWay(Endless(), Text(), 1, 4, 6, 20) == Fails
    ensures EasyWay(Endless(), Text(), 3, 4, 20, 20) == Arrives(3) && EasyWay(Endless(), Text(), 2, 4, 20, 20) == Arrives(2)
  {
    hide EasyWay, Endless;
    OneCloser(1, 8);
    Stands(1, 9);
    OneEasy(0, 6);
    Stands(1, 7);
    OneEasy(1, 6);
    AtEnd(2);
    AtEnd(3);
  }

  lemma TheB(sp: int)
    ensures sp == 1 ==> EasyWay(Endless(), Text(), sp, 4, 11, 20) == Choose(13, 2)
  {
    hide EasyWay, Endless;
    OneCloser(1, 11);
    OneEasy(1, 12);
    Stands(2, 13);
  }

  lemma TheBack()
    ensures NextBack(Endless(), 13, 1) == 19
  {
    var g := Endless();
    assert NextBack(g, 18, 1) == 19;
    assert NextBack(g, 16, 1) == 19;
    assert NextBack(g, 14, 1) == 19;
  }

  /** Behind the loop: `b`, and the back reference does not reach the end of the text. */
  lemma BehindLoop(fuel: nat, s: Store)
    requires Sized(s) && s.lastpos[1] == 1 && (s.pm[1] == RegMatch(0, 1) || s.pm[1] == RegMatch(1, 1))
    ensures Futile(Tries(fuel, 1, 11, 0, s), 1)
  {
    hide Backtrack, Branches, NextBack, EasyWay, Compiled;
    var g, x := Endless(), Text();
    TheB(1);
    TheBack();
    Stands(2, 13);
    Goes();
    assert x.text[2..3] == x.text[0..1];
    var q := if s.pm[1].so == 0 then 3 else 2;
    assert BackMove(x, s.pm, 1, 2, 4) == Some(q);
    NoFuel(1, 11, 0, s);
    if fuel > 0 {
      Picks(fuel, 1, 11, 0, s, 13, 2);
      Misses(fuel - 1, q, 20, 0, s);
    }
  }

  /** A pass of the inner loop at the `b` fails. */
  lemma InnerFails(fuel: nat, s: Store)
    requires Sized(s)
    ensures var r := Tries(fuel, 1, 5, 1, s);
            Futile(r, s.lastpos[1]) && r.1.pm == s.pm
  {
    hide Backtrack, Branches, EasyWay, Compiled;
    Stands(1, 5);
    Goes();
    NoFuel(1, 5, 1, s);
    if fuel > 0 {
      var s' := s.(lastpos := SetLast(s.lastpos, 2, 1));
      Picks(fuel, 1, 5, 1, s, 5, 1);
      Misses(fuel - 1, 1, 6, 2, s');
    }
  }

  /** The group is closed by an empty pass. */
  lemma EmptyGroup(fuel: nat, s: Store)
    requires Sized(s) && s.lastpos[1] == 1 && s.pm[1].so == 1
    ensures Futile(Tries(fuel, 1, 9, 1, s), 1)
  {
    hide Backtrack, Branches, EasyWay, Compiled;
    Stands(1, 9);
    NoFuel(1, 9, 1, s);
    if fuel > 0 {
      var s' := s.(pm := SetEnd(s.pm, 1, 1));
      PassWasEmpty(fuel - 1, s');
      Picks(fuel, 1, 9, 1, s, 9, 1);
    }
  }

  lemma PassWasEmpty(fuel: nat, s: Store)
    requires Sized(s) && s.lastpos[1] == 1 && s.pm[1] == RegMatch(1, 1)
    ensures Futile(Tries(fuel, 1, 10, 1, s), 1)
  {
    hide Backtrack, Branches, EasyWay, Compiled;
    Stands(1, 10);
    NoFuel(1, 10, 1, s);
    if fuel > 0 {
      BehindLoop(fuel - 1, s);
      Picks(fuel, 1, 10, 1, s, 10, 1);
    }
  }

  /** An empty pass of the outer loop at the `b`. */
  lemma EmptyPass(fuel: nat, s: Store)
    requires Sized(s) && s.lastpos[1] == 1
    ensures Futile(Tries(fuel, 1, 3, 1, s), 1)
  {
    hide Backtrack, Branches, EasyWay, Compiled;
    Stands(1, 3);
    NoFuel(1, 3, 1, s);
    if fuel > 0 {
      var s' := s.(pm := SetStart(s.pm, 1, 1));
      AtStar(fuel - 1, s');
      Picks(fuel, 1, 3, 1, s, 3, 1);
    }
  }

  lemma AtStar(fuel: nat, s: Store)
    requires Sized(s) && s.lastpos[1] == 1 && s.pm[1].so == 1
    ensures Futile(Tries(fuel, 1, 4, 1, s), 1)
  {
    hide Backtrack, Branches, EasyWay, Compiled;
    Stands(1, 4);
    NoFuel(1, 4, 1, s);
    if fuel > 0 {
      InnerFails(fuel - 1, s);
      var r := Tries(fuel - 1, 1, 5, 1, s);
      if r.0.NoMatch? { EmptyGroup(fuel - 1, r.1); }
      Picks(fuel, 1, 4, 1, s, 4, 1);
    }
  }

  /** The group holds the first `a`; what follows fails, and leaves its mark. */
  lemma FirstGroup(fuel: nat, s: Store)
    requires Sized(s) && s.lastpos[1] == 0 && s.pm[1].so == 0
    ensures Futile(Tries(fuel, 1, 8, 1, s), 1)
  {
    hide Backtrack, Branches, EasyWay, Compiled;
    Stands(1, 9);
    Goes();
    NoFuel(1, 8, 1, s);
    if fuel > 0 {
      var s' := s.(pm := SetEnd(s.pm, 1, 1));
      AnotherPass(fuel - 1, s');
      Picks(fuel, 1, 8, 1, s, 9, 1);
    }
  }

  lemma AnotherPass(fuel: nat, s: Store)
    requires Sized(s) && s.lastpos[1] == 0 && s.pm[1] == RegMatch(0, 1)
    ensures Futile(Tries(fuel, 1, 10, 1, s), 1)
  {
    hide Backtrack, Branches, EasyWay, Compiled;
    var g, x := Endless(), Text();
    Stands(1, 10);
    NoFuel(1, 10, 1, s);
    if fuel > 0 {
      var s' := s.(lastpos := SetLast(s.lastpos, 1, 1));
      EmptyPass(fuel - 1, s');
      var r := Tries(fuel - 1, 1, 3, 1, s');
      if r.0.NoMatch? {
        FailureUndoes(g, x, fuel - 1, 1, 4, 3, 20, 1, s');
        BehindLoop(fuel - 1, r.1);
      }
      Picks(fuel, 1, 10, 1, s, 10, 1);
    }
  }

  /** The first `a` is taken. */
  lemma FirstA(fuel: nat, s: Store)
    requires Sized(s) && s.lastpos[1] == 0 && s.pm[1].so == 0
    ensures Futile(Tries(fuel, 0, 5, 1, s), 1)
  {
    hide Backtrack, Branches, EasyWay, Compiled;
    Stands(0, 5);
    NoFuel(0, 5, 1, s);
    if fuel > 0 {
      var s' := s.(lastpos := SetLast(s.lastpos, 2, 0));
      InnerLoop(fuel - 1, s');
      Picks(fuel, 0, 5, 1, s, 5, 0);
    }
  }

  lemma InnerLoop(fuel: nat, s: Store)
    requires Sized(s) && s.lastpos[1] == 0 && s.lastpos[2] == 0 && s.pm[1].so == 0
    ensures Futile(Tries(fuel, 0, 6, 2, s), 1)
  {
    hide Backtrack, Branches, EasyWay, Compiled;
    Stands(1, 7);
    Goes();
    NoFuel(0, 6, 2, s);
    if fuel > 0 {
      var s' := s.(lastpos := SetLast(s.lastpos, 2, 1));
      Misses(fuel - 1, 1, 6, 2, s');
      FirstGroup(fuel - 1, s');
      Picks(fuel, 0, 6, 2, s, 7, 1);
    }
  }

  /** The loop's first pass, at the start of the text, comes back to itself. */
  lemma {:induction false} PassRecurs(fuel: nat, s: Store)
    requires Sized(s) && s.lastpos[1] == 0
    ensures Tries(fuel, 0, 3, 1, s).0 == OutOfFuel
    decreases fuel
  {
    hide Backtrack, Branches, EasyWay, Compiled;
    Stands(0, 3);
    NoFuel(0, 3, 1, s);
    if fuel > 0 {
      FirstStar(fuel - 1, s.(pm := SetStart(s.pm, 1, 0)));
      Picks(fuel, 0, 3, 1, s, 3, 0);
    }
  }

  lemma {:induction false} FirstStar(fuel: nat, s: Store)
    requires Sized(s) && s.lastpos[1] == 0 && s.pm[1].so == 0
    ensures Tries(fuel, 0, 4, 1, s).0 == OutOfFuel
    decreases fuel
  {
    hide Backtrack, Branches, EasyWay, Compiled;
    Stands(0, 4);
    NoFuel(0, 4, 1, s);
    if fuel > 0 {
      FirstA(fuel - 1, s);
      var r := Tries(fuel - 1, 0, 5, 1, s);
      if r.0.NoMatch? { LeavesEmpty(fuel - 1, r.1); }
      Picks(fuel, 0, 4, 1, s, 4, 0);
    }
  }

  lemma {:induction false} LeavesEmpty(fuel: nat, s: Store)
    requires Sized(s) && s.lastpos[1] == 1
    ensures Tries(fuel, 0, 9, 1, s).0 == OutOfFuel
    decreases fuel
  {
    hide Backtrack, Branches, EasyWay, Compiled;
    Stands(0, 9);
    NoFuel(0, 9, 1, s);
    if fuel > 0 {
      BeginsAgain(fuel - 1, s.(pm := SetEnd(s.pm, 1, 0)));
      Picks(fuel, 0, 9, 1, s, 9, 0);
    }
  }

  lemma {:induction false} BeginsAgain(fuel: nat, s: Store)
    requires Sized(s) && s.lastpos[1] == 1
    ensures Tries(fuel, 0, 10, 1, s).0 == OutOfFuel
    decreases fuel
  {
    hide Backtrack, Branches, EasyWay, Compiled;
    Stands(0, 10);
    NoFuel(0, 10, 1, s);
    if fuel > 0 {
      PassRecurs(fuel - 1, s.(lastpos := SetLast(s.lastpos, 1, 0)));
      Picks(fuel, 0, 10, 1, s, 10, 0);
    }
  }

  lemma LoopNeverEnds(fuel: nat, s: Store)
    requires Sized(s)
    ensures Tries(fuel, 0, 2, 0, s).0 == OutOfFuel
  {
    hide Backtrack, Branches, EasyWay, Compiled;
    Stands(0, 2);
    NoFuel(0, 2, 0, s);
    if fuel > 0 {
      PassRecurs(fuel - 1, s.(lastpos := SetLast(s.lastpos, 1, 0)));
      Picks(fuel, 0, 2, 0, s, 2, 0);
    }
  }

  /** No amount of fuel is enough. */
  lemma NeverEnds(fuel: nat, s: Store)
    requires Sized(s)
    ensures Backtrack(Endless(), Text(), fuel, 0, 4, 1, 20, 0, s).0 == OutOfFuel
  {
    hide Backtrack, Branches, EasyWay, Compiled;
    Stands(0, 1);
    NoFuel(0, 1, 0, s);
    if fuel > 0 {
      LoopNeverEnds(fuel - 1, s);
      Picks(fuel, 0, 1, 0, s, 1, 0);
    }
  }

  // ----- and yet the automaton matches -----

  function OneA(): Re {
    Then(One(Chr('a')), End(4))
  }

  function ManyA(): Re {
    Then(Starred(OneA(), 5), End(5))
  }

  function OneGroup(): Re {
    Then(Bracket(Group(1), ManyA()), End(7))
  }

  function Behind(): Re {
    Then(One(Chr('b')), Then(Bracket(Kind.Back(1), ManyA()), End(11)))
  }

  function Pattern(): Re {
    Then(Starred(OneGroup(), 8), Behind())
  }

  function All(large: bool): Segment {
    Segment(Endless(), Text(), 1, 20, large)
  }

  lemma {:induction false} RepeatA(i: int, j: int)
    requires 0 <= i <= j <= 4 && forall k | i <= k < j :: Text().text[k] == 'a'
    ensures Repeats(Endless(), Text(), OneA(), j - i, i, j)
    decreases j - i
  {
    if i < j {
      ThenMatches(Endless(), Text(), One(Chr('a')), End(4), i, i + 1, i + 1);
      RepeatA(i + 1, j);
    }
  }

  lemma ManyMatches(i: int, j: int)
    requires 0 <= i < j <= 4 && forall k | i <= k < j :: Text().text[k] == 'a'
    ensures Matches(Endless(), Text(), ManyA(), i, j)
  {
    var g, x := Endless(), Text();
    RepeatA(i, j);
    assert Repeats(g, x, OneA(), j - i, i, j);
    hide OneA;
    ThenMatches(g, x, Bracket(Plus, OneA()), End(5), i, j, j);
    ThenMatches(g, x, Starred(OneA(), 5), End(5), i, j, j);
  }

  lemma AllMatches()
    ensures Matches(Endless(), Text(), Pattern(), 0, 4)
  {
    var g, x := Endless(), Text();
    ManyMatches(0, 1);
    ManyMatches(2, 4);
    hide ManyA;
    GroupMatches();
    hide OneGroup;
    var back := Then(Bracket(Kind.Back(1), ManyA()), End(11));
    ThenMatches(g, x, Bracket(Kind.Back(1), ManyA()), End(11), 2, 4, 4);
    ThenMatches(g, x, One(Chr('b')), back, 1, 2, 4);
    hide Behind;
    ThenMatches(g, x, Starred(OneGroup(), 8), Behind(), 0, 1, 4);
  }

  lemma GroupMatches()
    requires Matches(Endless(), Text(), ManyA(), 0, 1)
    ensures NodeMatches(Endless(), Text(), Starred(OneGroup(), 8), 0, 1)
  {
    hide ManyA;
    var g, x := Endless(), Text();
    ThenMatches(g, x, Bracket(Group(1), ManyA()), End(7), 0, 1, 1);
    hide OneGroup;
    assert Repeats(g, x, OneGroup(), 0, 1, 1) && Repeats(g, x, OneGroup(), 1, 0, 1);
    ThenMatches(g, x, Bracket(Plus, OneGroup()), End(8), 0, 1, 1);
  }

  // ----- the strip is the pattern's -----

  lemma ManyCode(s: seq<Op>, pc: int)
    requires 0 <= pc <= |s| - 5 && s[pc] == OQUEST_(4) && s[pc + 1] == OPLUS_(2) && s[pc + 2] == OCHAR('a')
    requires s[pc + 3] == O_PLUS(2) && s[pc + 4] == O_QUEST(4)
    ensures Holds(s, pc, ManyA()) && Len(ManyA()) == 5
  {
    hide Holds, Len;
    EndCode(s, pc + 3, 4);
    EndCode(s, pc + 5, 5);
    AtomCode(s, pc + 2, Chr('a'), End(4));
    StarCode(s, pc, OneA(), 5, End(5));
  }

  lemma PatternCode(s: seq<Op>)
    requires |s| == 21 && forall i | 0 <= i < 21 :: s[i] == Code(i)
    ensures Holds(s, 1, Pattern()) && Len(Pattern()) == 19
  {
    hide Holds, Len, ManyA;
    ManyCode(s, 4);
    ManyCode(s, 14);
    EndCode(s, 10, 7);
    EndCode(s, 20, 11);
    BracketCode(s, 13, Kind.Back(1), ManyA(), End(11));
    AtomCode(s, 12, Chr('b'), Then(Bracket(Kind.Back(1), ManyA()), End(11)));
    BracketCode(s, 3, Group(1), ManyA(), End(7));
    StarCode(s, 1, OneGroup(), 8, Behind());
  }

  lemma PatternIsWhole(large: bool)
    ensures Whole(All(large), Pattern()) && All(large).Valid()
  {
    hide Holds, Len, Pattern, Nesting, Numbered, Compiled;
    PatternCode(Endless().strip);
    NestingIsTwo();
    assert Code(0) == OEND && Code(20) == OEND;
    LaidIsCompiled(Endless(), Pattern());
    CodesValid(All(large), Pattern());
  }

  lemma NestingIsTwo()
    ensures Nesting(Pattern()) == 2 && Numbered(Pattern(), 2)
  {
    assert Nesting(ManyA()) == 1 && Numbered(ManyA(), 2) && !HasBack(ManyA(), 1);
    hide ManyA;
    assert Nesting(OneGroup()) == 1 && Numbered(OneGroup(), 2);
    assert Nesting(Behind()) == 1 && Numbered(Behind(), 2);
    hide OneGroup, Behind;
    assert Nesting(Then(Bracket(Plus, OneGroup()), End(8))) == 2;
  }

  // ----- so the matcher never has an answer -----

  /** The states of a fresh start. */
  function Fresh(): set<int> {
    {1, 2, 3, 4, 5, 6, 8, 9, 10, 11, 12}
  }

  lemma FreshIsClosed(p: int)
    requires p in Fresh()
    ensures ClosedAt(Endless(), NOTHING, Fresh(), p)
  {
    assert Endless().strip[p] == Code(p);
  }

  /** No operator that takes a character leads there. */
  lemma NothingMasked(large: bool)
    requires All(large).Valid()
    ensures Unmasked(All(large))
  {
    var g := Endless();
    forall p | p in Fresh() && 1 <= p < 20 ensures ClosedAt(g, NOTHING, Fresh(), p) { FreshIsClosed(p); }
    CloseIsLeast(g, 1, 20, NOTHING, {1}, Fresh());
    hide Fresh;
    forall p | 1 <= p < 20 && TakesChars(g.strip[p]) ensures p + 1 !in FreshStates(All(large)) { NotFresh(p); }
  }

  lemma NotFresh(p: int)
    requires 1 <= p < 20 && TakesChars(Endless().strip[p])
    ensures p + 1 !in Fresh()
  {
    assert Endless().strip[p] == Code(p);
  }

  lemma NoAnchors(large: bool)
    ensures EnoughRounds(large, Endless())
  {
    var s := Endless().strip;
    forall p | 0 <= p < 21 ensures !s[p].OBOL? && !s[p].OEOL? { assert s[p] == Code(p); }
    NoneIsEnough(large, Endless());
  }

  lemma Asked(large: bool, fuel: nat)
    requires All(large).Valid()
    ensures var m := All(large);
            && m.g.backrefs && m.Exact() && Unmasked(m) && Matches(m.g, m.x, Pattern(), m.x.begin, m.x.end)
            && Backtrack(m.g, m.x, fuel, m.x.begin, m.x.end, m.lo, m.hi, 0, Blank(m.g)).0 == OutOfFuel
  {
    hide Backtrack, Pattern, Unmasked, Matches, Scannable, EnoughRounds;
    NoAnchors(large);
    NothingMasked(large);
    AllMatches();
    NeverEnds(fuel, Blank(Endless()));
  }

  /** Whatever the fuel, matcher() comes to call backref() on all of the text, and there it stays. */
  lemma NeverAnswers(large: bool, fuel: nat, nmatch: nat, given: seq<RegMatch>)
    requires nmatch <= |given| && All(large).Valid()
    ensures Answer(All(large), Pattern(), fuel, nmatch, given).0 == Unknown
  {
    hide Backtrack, Pattern, Scannable, EnoughRounds, Answer, Compiled, Whole, Unmasked, Matches, All, Blank;
    PatternIsWhole(large);
    Asked(large, fuel);
    AnswersNothing(All(large), Pattern(), fuel, nmatch, given);
  }
}
