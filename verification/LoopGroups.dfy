/** The group of a repeated group: that of the last pass. */
module LoopGroups {
  import opened Strip
  import opened Regex
  import opened Running
  import opened Captures
  import opened SlowScan
  import opened GreedyLoop
  import opened Building
  import opened Matching
  import opened Promises

  /** A group on its own, and the same repeated, as regcomp() writes `(b)*`. */
  function Alone(i: nat, b: Re): Re {
    Then(Bracket(Group(i), b), End(0))
  }

  function Repeated(i: nat, b: Re): Re {
    Then(Starred(Alone(i, b), 0), End(0))
  }

  /** An option or a loop that is all there is takes all of the range. */
  lemma TakesAll(g: Guts, x: Subject, k: Kind, b: Re, sp: int, stop: int, pm: seq<RegMatch>)
    requires (k.Plus? || k.Quest?) && Matches(g, x, Then(Bracket(k, b), End(0)), sp, stop)
    ensures NodeMatches(g, x, Bracket(k, b), sp, stop)
    ensures Dissected(g, x, Then(Bracket(k, b), End(0)), sp, stop, pm) == DissectedBody(g, x, k, b, sp, stop, pm)
  {
    hide DissectedBody;
    var r := SplitOf(g, x, Bracket(k, b), End(0), sp, stop);
    assert Matches(g, x, End(0), r, stop);
  }

  /** What comes of `(b)*` on a range with text: what comes of a loop over the group. */
  lemma StarIsLoop(g: Guts, x: Subject, b: Re, sp: int, stop: int, pm: seq<RegMatch>)
    requires Matches(g, x, Then(Starred(b, 0), End(0)), sp, stop) && sp < stop
    ensures NodeMatches(g, x, Bracket(Plus, b), sp, stop)
    ensures Dissected(g, x, Then(Starred(b, 0), End(0)), sp, stop, pm) == DissectedBody(g, x, Plus, b, sp, stop, pm)
  {
    var loop := Then(Bracket(Plus, b), End(0));
    hide Matches, Dissected, LongestMatch;
    TakesAll(g, x, Quest, loop, sp, stop, pm);
    OptionMatches(g, x, loop, sp, stop);
    LongestMatchIsGreatest(g, x, loop, sp, stop);
    TakesAll(g, x, Plus, b, sp, stop, pm);
  }

  lemma AloneMatches(g: Guts, x: Subject, i: nat, b: Re, p: int, q: int)
    ensures Matches(g, x, Alone(i, b), p, q) <==> Matches(g, x, b, p, q)
  {
    if Matches(g, x, b, p, q) { ThenMatches(g, x, Bracket(Group(i), b), End(0), p, q, q); }
    if Matches(g, x, Alone(i, b), p, q) { var k := ThenSplits(g, x, Bracket(Group(i), b), End(0), p, q); }
  }

  lemma OnlyBody(i: nat, b: Re, body: Re)
    requires !HasGroup(b, i) && GroupBody(Alone(i, b), i, body)
    ensures body == b
  {
    assert !GroupBody(End(0), i, body);
    assert NodeGroupBody(Bracket(Group(i), b), i, body);
    if GroupBody(b, i, body) { BodyMeansGroup(b, i, body); }
  }

  /** When all matches of `b` are equally long, `(b)*` on a range with text reports the last of them. */
  lemma LastOfEqual(g: Guts, x: Subject, i: nat, b: Re, w: nat, sp: int, stop: int, pm: seq<RegMatch>)
    requires Proper(Alone(i, b)) && w > 0 && (forall p, q | Matches(g, x, b, p, q) :: q == p + w)
    requires Matches(g, x, Repeated(i, b), sp, stop) && sp < stop && i < |pm|
    ensures Dissected(g, x, Repeated(i, b), sp, stop, pm)[i] == RegMatch(stop - w, stop)
  {
    var all := Alone(i, b);
    assert Must(all, i) && !HasGroup(b, i);
    StarIsLoop(g, x, all, sp, stop, pm);
    LoopSets(g, x, all, sp, stop, pm);
    var p, pm' := LastPass(g, x, all, sp, sp, stop), DissectedBody(g, x, Plus, all, sp, stop, pm);
    forall j, k | Matches(g, x, all, j, k) ensures k == j + w { AloneMatches(g, x, i, b, j, k); }
    PassesEndThere(g, x, all, w, sp, stop);
    hide Matches, LastPass, DissectedBody, Dissected, LongestMatch, Alone;
    LongestMatchIsGreatest(g, x, all, p.0, stop);
    assert Captured(g, x, all, i, pm'[i], p.0, p.1);
    var body :| GroupBody(all, i, body) && CapturedBy(g, x, body, pm'[i], p.0, p.1);
    OnlyBody(i, b, body);
  }

  lemma PassesEndThere(g: Guts, x: Subject, b: Re, w: nat, sp: int, stop: int)
    requires NodeMatches(g, x, Bracket(Plus, b), sp, stop) && w > 0 && (forall i, j | Matches(g, x, b, i, j) :: j == i + w)
    ensures LastPass(g, x, b, sp, sp, stop).1 == stop
  {
    var n: nat :| Repeats(g, x, b, n, sp, stop) && n >= 1;
    EqualPassesExhaust(g, x, b, w, n, sp, sp, stop);
  }

  // ----- `(a)*` -----

  function OneA(): Re {
    Then(One(Chr('a')), End(0))
  }

  lemma OneAIsOne(g: Guts, x: Subject, p: int, q: int)
    requires Matches(g, x, OneA(), p, q)
    ensures q == p + 1
  {
    var k := ThenSplits(g, x, One(Chr('a')), End(0), p, q);
  }

  /** For `(a)*` the last `a` of the match is reported as the group, if the match is not empty. */
  lemma ReportsLastA(m: Segment, fuel: nat, nmatch: nat, given: seq<RegMatch>)
    requires Plain(m, Repeated(1, OneA())) && m.Valid() && 2 <= nmatch <= |given| && m.g.nsub >= 1
    requires Answer(m, Repeated(1, OneA()), fuel, nmatch, given).0 == Success
    ensures var r := Answer(m, Repeated(1, OneA()), fuel, nmatch, given).1;
            |r| == |given| && (r[0].so < r[0].eo ==> r[1] == RegMatch(r[0].eo - 1, r[0].eo))
  {
    hide *;
    var e, so, eo := Reported(m, Repeated(1, OneA()), fuel, nmatch, given);
    BlankSizes(m.g, Blank(m.g).pm, Blank(m.g).lastpos);
    if so < eo { LastA(m.g, m.x, so, eo, Blank(m.g).pm); }
  }

  lemma LastA(g: Guts, x: Subject, sp: int, stop: int, pm: seq<RegMatch>)
    requires Matches(g, x, Repeated(1, OneA()), sp, stop) && sp < stop && 1 < |pm|
    ensures Dissected(g, x, Repeated(1, OneA()), sp, stop, pm)[1] == RegMatch(stop - 1, stop)
  {
    assert Proper(Alone(1, OneA()));
    hide Matches, Repeated, Dissected, Alone;
    forall p, q | Matches(g, x, OneA(), p, q) ensures q == p + 1 { OneAIsOne(g, x, p, q); }
    hide OneA;
    LastOfEqual(g, x, 1, OneA(), 1, sp, stop, pm);
  }
}
