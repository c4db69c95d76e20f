/** The passes of a loop, each as long as it can be: when they come to the end of what the loop matched.
    With `(aa|aaa)+` on "aaaa" they do not: the group then holds "aaa", which is no pass of any match of
    the whole. */
module GreedyLoop {
  import opened Options
  import opened Strip
  import opened Regex
  import opened Automaton
  import opened SlowScan
  import opened Captures

  /** The passes that begin at ssp, each as long as it can be, come by at p. */
  ghost predicate PassesReach(g: Guts, x: Subject, b: Re, ssp: int, rest: int, p: int)
    decreases rest - ssp
  {
    p == ssp ||
    var sep := LongestMatch(g, x, b, ssp, rest);
    sep.Some? && ssp < sep.value <= rest && PassesReach(g, x, b, sep.value, rest, p)
  }

  /** From p the longest pass leaves a remainder that more passes can take. */
  ghost predicate LongestGoesOn(g: Guts, x: Subject, b: Re, p: int, rest: int) {
    var sep := LongestMatch(g, x, b, p, rest);
    sep.Some? && Star(g, x, b, sep.value, rest)
  }

  lemma StarThen(g: Guts, x: Subject, b: Re, i: int, k: int, j: int)
    requires Matches(g, x, b, i, k) && Star(g, x, b, k, j)
    ensures Star(g, x, b, i, j)
  {
    var n: nat :| Repeats(g, x, b, n, k, j);
    assert Repeats(g, x, b, n + 1, i, j);
  }

  /** Passes that take some text begin with one that takes some. */
  lemma {:induction false} FirstTakes(g: Guts, x: Subject, b: Re, n: nat, i: int, j: int)
    requires Repeats(g, x, b, n, i, j) && i < j
    ensures LongestMatch(g, x, b, i, j).Some? && i < LongestMatch(g, x, b, i, j).value <= j
    decreases n
  {
    var k := RepeatSplits(g, x, b, n, i, j);
    MatchBounds(g, x, b, i, k);
    RepeatBounds(g, x, b, n - 1, k, j);
    if k == i { FirstTakes(g, x, b, n - 1, i, j); } else { LongestMatchIsGreatest(g, x, b, i, j); }
  }

  /** If the passes come to the end, then from every place they come by. */
  lemma {:induction false} ReachedGoesOn(g: Guts, x: Subject, b: Re, before: int, ssp: int, rest: int, p: int)
    requires LastPass(g, x, b, before, ssp, rest).1 == rest && ssp <= rest && PassesReach(g, x, b, ssp, rest, p)
    ensures p <= rest && Star(g, x, b, p, rest) && (p < rest ==> LongestGoesOn(g, x, b, p, rest))
    decreases rest - ssp
  {
    var sep := LongestMatch(g, x, b, ssp, rest);
    LongestMatchIsGreatest(g, x, b, ssp, rest);
    if ssp == rest {
      assert Repeats(g, x, b, 0, rest, rest);
    } else {
      ReachedGoesOn(g, x, b, ssp, sep.value, rest, if p == ssp then sep.value else p);
      if p == ssp { StarThen(g, x, b, ssp, sep.value, rest); }
    }
  }

  /** The passes come to the end of what the loop matched if and only if, at every place that they
      come by before it, the longest pass leaves a remainder that more passes can take. */
  lemma {:induction false} PassesExhaustIff(g: Guts, x: Subject, b: Re, before: int, ssp: int, rest: int)
    requires Star(g, x, b, ssp, rest) && ssp <= rest
    ensures LastPass(g, x, b, before, ssp, rest).1 == rest <==>
            forall p | PassesReach(g, x, b, ssp, rest, p) && p < rest :: LongestGoesOn(g, x, b, p, rest)
    decreases rest - ssp
  {
    if LastPass(g, x, b, before, ssp, rest).1 == rest {
      forall p | PassesReach(g, x, b, ssp, rest, p) && p < rest ensures LongestGoesOn(g, x, b, p, rest) {
        ReachedGoesOn(g, x, b, before, ssp, rest, p);
      }
    }
    if forall p | PassesReach(g, x, b, ssp, rest, p) && p < rest :: LongestGoesOn(g, x, b, p, rest) {
      PassesExhaust(g, x, b, before, ssp, rest);
    }
  }

  lemma {:induction false} PassesExhaust(g: Guts, x: Subject, b: Re, before: int, ssp: int, rest: int)
    requires Star(g, x, b, ssp, rest) && ssp <= rest
    requires forall p | PassesReach(g, x, b, ssp, rest, p) && p < rest :: LongestGoesOn(g, x, b, p, rest)
    ensures LastPass(g, x, b, before, ssp, rest).1 == rest
    decreases rest - ssp
  {
    LongestMatchIsGreatest(g, x, b, ssp, rest);
    if ssp < rest {
      var n: nat :| Repeats(g, x, b, n, ssp, rest);
      FirstTakes(g, x, b, n, ssp, rest);
      assert PassesReach(g, x, b, ssp, rest, ssp);
      PassesExhaust(g, x, b, ssp, LongestMatch(g, x, b, ssp, rest).value, rest);
    }
  }

  /** It is so whenever all matches of the body are equally long. */
  lemma {:induction false} EqualPassesExhaust(g: Guts, x: Subject, b: Re, w: nat, n: nat, before: int, ssp: int, rest: int)
    requires w > 0 && (forall i, j | Matches(g, x, b, i, j) :: j == i + w)
    requires Repeats(g, x, b, n, ssp, rest)
    ensures LastPass(g, x, b, before, ssp, rest).1 == rest
    decreases n
  {
    LongestMatchIsGreatest(g, x, b, ssp, rest);
    if n > 0 {
      var k := RepeatSplits(g, x, b, n, ssp, rest);
      RepeatBounds(g, x, b, n - 1, k, rest);
      EqualPassesExhaust(g, x, b, w, n - 1, ssp, k, rest);
    }
  }

  // ----- passes that stop short -----

  function A(t: Re): Re {
    Then(One(Chr('a')), t)
  }

  function Two(): Re { A(A(End(2))) }

  function Three(): Re { A(A(A(End(6)))) }

  function Body(): Re {
    Then(Choice(Two(), Last(Three())), End(6))
  }

  function Text(): Subject {
    Subject("aaaa", 0, 4, false, false)
  }

  lemma AMatches(g: Guts, t: Re, i: int, j: int)
    ensures Matches(g, Text(), A(t), i, j) <==> 0 <= i < 4 && Matches(g, Text(), t, i + 1, j)
  {
    var x := Text();
    if 0 <= i < 4 && Matches(g, x, t, i + 1, j) { ThenMatches(g, x, One(Chr('a')), t, i, i + 1, j); }
    if Matches(g, x, A(t), i, j) { var k := ThenSplits(g, x, One(Chr('a')), t, i, j); }
  }

  lemma BodyMatches(g: Guts, i: int, j: int)
    ensures Matches(g, Text(), Body(), i, j) <==> 0 <= i < j <= 4 && (j == i + 2 || j == i + 3)
  {
    hide A;
    var x := Text();
    AMatches(g, A(End(2)), i, j);
    AMatches(g, End(2), i + 1, j);
    AMatches(g, A(A(End(6))), i, j);
    AMatches(g, A(End(6)), i + 1, j);
    AMatches(g, End(6), i + 2, j);
    var n := Choice(Two(), Last(Three()));
    if NodeMatches(g, x, n, i, j) { ThenMatches(g, x, n, End(6), i, j, j); }
    if Matches(g, x, Body(), i, j) { var k := ThenSplits(g, x, n, End(6), i, j); }
  }

  /** All of the text is a match, but the passes stop one character short of it. */
  lemma PassesFallShort(g: Guts)
    ensures NodeMatches(g, Text(), Bracket(Plus, Body()), 0, 4)
    ensures LastPass(g, Text(), Body(), 0, 0, 4) == (0, 3)
  {
    AllIsTwoPasses(g);
    hide Body, LongestMatch, NodeMatches;
    FirstPassIsThree(g);
    NoSecondPass(g);
    assert LastPass(g, Text(), Body(), 0, 3, 4) == (0, 3);
  }

  lemma AllIsTwoPasses(g: Guts)
    ensures NodeMatches(g, Text(), Bracket(Plus, Body()), 0, 4)
  {
    hide Body;
    var x, b := Text(), Body();
    BodyMatches(g, 0, 2);
    BodyMatches(g, 2, 4);
    hide Matches;
    assert Repeats(g, x, b, 0, 4, 4);
    assert Repeats(g, x, b, 1, 2, 4);
    assert Repeats(g, x, b, 2, 0, 4);
  }

  lemma FirstPassIsThree(g: Guts)
    ensures LongestMatch(g, Text(), Body(), 0, 4) == Some(3)
  {
    hide Body;
    BodyMatches(g, 0, 4);
    BodyMatches(g, 0, 3);
  }

  lemma NoSecondPass(g: Guts)
    ensures LongestMatch(g, Text(), Body(), 3, 4) == None
  {
    hide Body;
    BodyMatches(g, 3, 4);
    BodyMatches(g, 3, 3);
    assert LongestMatch(g, Text(), Body(), 3, 2) == None;
  }
}
