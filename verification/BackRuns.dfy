/** Runs of the automaton in which a back reference takes the text that its group holds, and how far
    what backref() finds is such a run: up to the stop state, or up to the end of a branch. */
module BackRuns {
  import opened Strip
  import opened Regex
  import opened Options
  import opened Captures
  import opened Backtracking
  import opened BackrefInPlace

  /** An operator, a place in the text, and the sub-matches so far. */
  datatype Config = Config(pc: int, sp: int, pm: seq<RegMatch>)

  // ----- what an operator takes -----

  /** A line begins at p, as backref() sees it: not at the end of the text behind a newline, but at the
      beginning also where the byte in front is a newline. */
  predicate LineBegins(g: Guts, x: Subject, p: int) {
    || (AtBol(g, x, p) && (p == x.begin || p < x.end))
    || (g.newline && p == x.begin < x.end && IsNewline(x, p - 1))
  }

  predicate WordBegins(g: Guts, x: Subject, p: int) {
    p < x.end && WordAt(x, p) && if p > x.begin then !WordAt(x, p - 1) else LineBegins(g, x, p)
  }

  predicate WordEnds(x: Subject, p: int) {
    p > x.begin && WordAt(x, p - 1) && if p < x.end then !WordAt(x, p) else !x.noteol
  }

  /** An operator that leaves no choice takes the text between i and j. */
  predicate OpTakes(g: Guts, x: Subject, op: Op, i: int, j: int) {
    match op
    case OCHAR(c) => AtomMatches(g, x, Chr(c), i, j)
    case OANY => AtomMatches(g, x, Any, i, j)
    case OANYOF(n) => AtomMatches(g, x, AnyOf(n), i, j)
    case OBOL => i == j && LineBegins(g, x, i)
    case OEOL => AtomMatches(g, x, Eol, i, j)
    case OBOW => i == j && WordBegins(g, x, i)
    case OEOW => i == j && WordEnds(x, i)
    case _ => i == j
  }

  /** The text between i and j is that of the sub-match r, which is set. */
  predicate TakesCopy(x: Subject, r: RegMatch, i: int, j: int) {
    && r.eo != -1 && 0 <= r.so <= r.eo <= |x.text| && 0 <= i <= j <= |x.text|
    && j - i == r.eo - r.so && x.text[i..j] == x.text[r.so..r.eo]
  }

  /** The easy operators of backref() take what they stand for, as far as `stop`, and nothing else. */
  lemma EasyMoveIff(g: Guts, x: Subject, op: Op, sp: int, stop: int, q: int)
    requires IsEasy(op) && sp <= stop <= x.end
    ensures EasyMove(g, x, op, sp, stop) == Some(q) <==> OpTakes(g, x, op, sp, q) && q <= stop
  {
  }

  /** A back reference takes a copy of what its group holds, as far as `stop`, and nothing else. */
  lemma BackMoveIff(x: Subject, pm: seq<RegMatch>, i: nat, sp: int, stop: int, q: int)
    ensures BackMove(x, pm, i, sp, stop) == Some(q) <==> i < |pm| && TakesCopy(x, pm[i], sp, q) && q <= stop
  {
  }

  // ----- runs -----

  /** `pm'` is `pm` with the sub-match i beginning, or ending, at p. */
  predicate StartsAt(pm: seq<RegMatch>, i: nat, p: int, pm': seq<RegMatch>) {
    |pm'| == |pm| && forall k | 0 <= k < |pm| :: pm'[k] == if k == i then RegMatch(p, pm[k].eo) else pm[k]
  }

  predicate EndsAt(pm: seq<RegMatch>, i: nat, p: int, pm': seq<RegMatch>) {
    |pm'| == |pm| && forall k | 0 <= k < |pm| :: pm'[k] == if k == i then RegMatch(pm[k].so, p) else pm[k]
  }

  /** The first O_BACK of group i behind p is at q. */
  predicate Closes(g: Guts, i: nat, p: int, q: int) {
    0 <= p <= q < |g.strip| && g.strip[q] == O_BACK(i) && forall k | p <= k < q :: g.strip[k] != O_BACK(i)
  }

  /** One move of a run. */
  ghost predicate Moves(g: Guts, x: Subject, a: Config, b: Config) {
    0 <= a.pc < |g.strip| &&
    match g.strip[a.pc]
    case OBACK_(i) =>
      && Closes(g, i, a.pc, b.pc - 1) && b.pm == a.pm
      && i < |a.pm| && TakesCopy(x, a.pm[i], a.sp, b.sp) && b.sp <= x.end
    case OQUEST_(n) => (b.pc == a.pc + 1 || b.pc == a.pc + n + 1) && b.sp == a.sp && b.pm == a.pm
    case OPLUS_(_) => b == a.(pc := a.pc + 1)
    case O_PLUS(n) => (b.pc == a.pc + 1 || b.pc == a.pc - n + 1) && b.sp == a.sp && b.pm == a.pm
    case OLPAREN(i) => b.pc == a.pc + 1 && b.sp == a.sp && StartsAt(a.pm, i, a.sp, b.pm)
    case ORPAREN(i) => b.pc == a.pc + 1 && b.sp == a.sp && EndsAt(a.pm, i, a.sp, b.pm)
    case OCH_(n) => (b.pc == a.pc + 1 || b.pc == a.pc + n) && b.sp == a.sp && b.pm == a.pm
    case OOR1(_) => b == a.(pc := ChoiceEnd(g, a.pc + 1) + 1)
    case OOR2(n) =>
      && (b.pc == a.pc + 1 || (b.pc == a.pc + n < |g.strip| && !g.strip[b.pc].O_CH?))
      && b.sp == a.sp && b.pm == a.pm
    case O_CH(_) => b == a.(pc := a.pc + 1)
    case O_QUEST(_) => b == a.(pc := a.pc + 1)
    case op => IsConsuming(op) && b.pc == a.pc + 1 && b.pm == a.pm && OpTakes(g, x, op, a.sp, b.sp)
  }

  lemma EasyMoves(g: Guts, x: Subject, a: Config, stop: int)
    requires 0 <= a.pc < |g.strip| && IsEasy(g.strip[a.pc]) && a.sp <= stop <= x.end
    requires EasyMove(g, x, g.strip[a.pc], a.sp, stop).Some?
    ensures var q := EasyMove(g, x, g.strip[a.pc], a.sp, stop).value;
            q <= stop && Moves(g, x, a, Config(EasyNext(g, a.pc), q, a.pm))
  {
    hide EasyMove, OpTakes;
    EasyMoveIff(g, x, g.strip[a.pc], a.sp, stop, EasyMove(g, x, g.strip[a.pc], a.sp, stop).value);
    OverNothing(g, x, g.strip[a.pc], a.sp, EasyMove(g, x, g.strip[a.pc], a.sp, stop).value);
  }

  lemma OverNothing(g: Guts, x: Subject, op: Op, i: int, j: int)
    requires OpTakes(g, x, op, i, j)
    ensures op.O_QUEST? || op.OOR1? ==> i == j
  {
  }

  lemma NextBackCloses(g: Guts, p: int, i: nat)
    requires 0 <= p && NextBack(g, p, i) < |g.strip|
    ensures Closes(g, i, p, NextBack(g, p, i))
    decreases |g.strip| - p
  {
    if g.strip[p] != O_BACK(i) { NextBackCloses(g, p + 1, i); }
  }

  lemma ParenMoves(pm: seq<RegMatch>, i: nat, p: int)
    ensures StartsAt(pm, i, p, SetStart(pm, i, p)) && EndsAt(pm, i, p, SetEnd(pm, i, p))
  {
  }

  ghost predicate RunsIn(g: Guts, x: Subject, n: nat, a: Config, b: Config)
    decreases n
  {
    if n == 0 then a == b else exists c :: Moves(g, x, a, c) && RunsIn(g, x, n - 1, c, b)
  }

  /** There is a run from a to b. */
  ghost predicate Runs(g: Guts, x: Subject, a: Config, b: Config) {
    exists n: nat :: RunsIn(g, x, n, a, b)
  }

  lemma RunsAfter(g: Guts, x: Subject, a: Config, b: Config, c: Config)
    requires Moves(g, x, a, b) && Runs(g, x, b, c)
    ensures Runs(g, x, a, c)
  {
    var n: nat :| RunsIn(g, x, n, b, c);
    assert RunsIn(g, x, n + 1, a, c);
  }

  lemma {:induction false} RunsJoinIn(g: Guts, x: Subject, n: nat, a: Config, b: Config, c: Config)
    requires RunsIn(g, x, n, a, b) && Runs(g, x, b, c)
    ensures Runs(g, x, a, c)
    decreases n
  {
    if n > 0 {
      var d :| Moves(g, x, a, d) && RunsIn(g, x, n - 1, d, b);
      RunsJoinIn(g, x, n - 1, d, b, c);
      RunsAfter(g, x, a, d, c);
    }
  }

  lemma RunsJoin(g: Guts, x: Subject, a: Config, b: Config, c: Config)
    requires Runs(g, x, a, b) && Runs(g, x, b, c)
    ensures Runs(g, x, a, c)
  {
    var n: nat :| RunsIn(g, x, n, a, b);
    RunsJoinIn(g, x, n, a, b, c);
  }

  lemma RunsHere(g: Guts, x: Subject, a: Config)
    ensures Runs(g, x, a, a)
  {
    assert RunsIn(g, x, 0, a, a);
  }

  /** The end of a branch: the stop state that backref() gives to the search in a branch. */
  predicate BranchEnd(g: Guts, q: int) {
    0 <= q < |g.strip| && (g.strip[q].OOR1? || g.strip[q].O_CH?)
  }

  ghost predicate HasChoice(g: Guts, lo: int, hi: int) {
    exists p :: lo <= p < hi && ChoiceAt(g, p)
  }

  predicate ChoiceAt(g: Guts, p: int) {
    0 <= p < |g.strip| && g.strip[p].OCH_?
  }

  /** A run from `a` to q, at `stop`, with the sub-matches `pm`; q is the stop state, or the end of a
      branch of a choice in [lo, stopst). */
  ghost predicate ComesTo(g: Guts, x: Subject, a: Config, lo: int, stopst: int, stop: int, pm: seq<RegMatch>, q: int) {
    && Runs(g, x, a, Config(q, stop, pm))
    && (q == stopst || (lo <= q < stopst && BranchEnd(g, q) && HasChoice(g, lo, stopst)))
  }

  lemma ComesAfter(g: Guts, x: Subject, a: Config, b: Config, lo: int, stopst: int, stop: int, pm: seq<RegMatch>, q: int)
    requires Runs(g, x, a, b) && ComesTo(g, x, b, lo, stopst, stop, pm, q)
    ensures ComesTo(g, x, a, lo, stopst, stop, pm, q)
  {
    RunsJoin(g, x, a, b, Config(q, stop, pm));
  }

  lemma OneMove(g: Guts, x: Subject, a: Config, b: Config)
    requires Moves(g, x, a, b)
    ensures Runs(g, x, a, b)
  {
    RunsHere(g, x, b);
    RunsAfter(g, x, a, b, b);
  }

  lemma {:induction false} EasyWayRuns(g: Guts, x: Subject, lo: int, re: Re, stopst: int, sp: int, stop: int, ss: int, d: int, pm: seq<RegMatch>)
    requires PlacedIn(g, lo, re, stopst, ss, d) && sp <= stop <= x.end
    ensures var w := EasyWay(g, x, sp, stop, ss, stopst);
            && (w.Arrives? ==> Runs(g, x, Config(ss, sp, pm), Config(stopst, w.sp, pm)))
            && (w.Choose? ==> PlacedIn(g, lo, re, stopst, w.ss, d) && w.ss < stopst && w.sp <= stop && !IsEasy(g.strip[w.ss])
                              && Runs(g, x, Config(ss, sp, pm), Config(w.ss, w.sp, pm)))
    decreases stopst - ss
  {
    hide Runs, Holds;
    RunsHere(g, x, Config(ss, sp, pm));
    if ss < stopst && IsEasy(g.strip[ss]) {
      EasyNextInside(g, lo, re, stopst, ss, d);
      var q := EasyMove(g, x, g.strip[ss], sp, stop);
      if q.Some? {
        var next := EasyNext(g, ss);
        EasyWayRuns(g, x, lo, re, stopst, q.value, stop, next, d, pm);
        var w := EasyWay(g, x, q.value, stop, next, stopst);
        EasyMoves(g, x, Config(ss, sp, pm), stop);
        if w.Arrives? { RunsAfter(g, x, Config(ss, sp, pm), Config(next, q.value, pm), Config(stopst, w.sp, pm)); }
        if w.Choose? { RunsAfter(g, x, Config(ss, sp, pm), Config(next, q.value, pm), Config(w.ss, w.sp, pm)); }
      }
    }
  }

  /** What regcomp() guarantees, and a place in the code of a tree. */
  ghost predicate Placed(g: Guts, size: nat, nplus: int, lo: int, re: Re, stopst: int, ss: int, d: int) {
    WellCompiled(g, size, nplus) && PlacedIn(g, lo, re, stopst, ss, d)
  }

  /** When backref() succeeds, a run leads from where it began to the stop state, or to the end of a
      branch, at `stop`; every back reference on it took the text that its group held, and the
      sub-matches are those of the run. */
  lemma {:induction false} BacktrackRuns(g: Guts, x: Subject, size: nat, nplus: int, fuel: nat, lo: int, re: Re,
                                         sp: int, stop: int, ss: int, stopst: int, d: int, lev: int, s: Store) returns (q: int)
    requires Placed(g, size, nplus, lo, re, stopst, ss, d) && sp <= stop <= x.end
    ensures var r := Backtrack(g, x, fuel, sp, stop, ss, stopst, lev, s);
            r.0.Done? ==> ComesTo(g, x, Config(ss, sp, s.pm), lo, stopst, stop, r.1.pm, q)
    decreases fuel, 1, 0
  {
    hide Runs, WellCompiled, Holds;
    q := stopst;
    if fuel > 0 {
      EasyWayRuns(g, x, lo, re, stopst, sp, stop, ss, d, s.pm);
      var w := EasyWay(g, x, sp, stop, ss, stopst);
      if w.Choose? {
        q := ChosenRuns(g, x, size, nplus, fuel, lo, re, w.sp, stop, w.ss, stopst, d, lev, s);
        var r := Chosen(g, x, fuel, w.sp, stop, w.ss, stopst, lev, s);
        if r.0.Done? {
          ComesAfter(g, x, Config(ss, sp, s.pm), Config(w.ss, w.sp, s.pm), lo, stopst, stop, r.1.pm, q);
        }
      }
    }
  }

  /** A call that follows one move. */
  lemma {:induction false} CallRuns(g: Guts, x: Subject, size: nat, nplus: int, f: nat, lo: int, re: Re, stop: int, stopst: int,
                                    d: int, lev: int, from: Config, to: Config, s: Store) returns (q: int)
    requires Placed(g, size, nplus, lo, re, stopst, to.pc, d) && to.sp <= stop <= x.end
    requires Moves(g, x, from, to) && s.pm == to.pm
    ensures var r := Backtrack(g, x, f, to.sp, stop, to.pc, stopst, lev, s);
            r.0.Done? ==> ComesTo(g, x, from, lo, stopst, stop, r.1.pm, q)
    decreases f, 2, 0
  {
    hide Runs, WellCompiled, Holds;
    q := BacktrackRuns(g, x, size, nplus, f, lo, re, to.sp, stop, to.pc, stopst, d, lev, s);
    var r := Backtrack(g, x, f, to.sp, stop, to.pc, stopst, lev, s);
    if r.0.Done? {
      OneMove(g, x, from, to);
      ComesAfter(g, x, from, to, lo, stopst, stop, r.1.pm, q);
    }
  }

  lemma {:induction false} ChosenRuns(g: Guts, x: Subject, size: nat, nplus: int, fuel: nat, lo: int, re: Re,
                                      sp: int, stop: int, ss: int, stopst: int, d: int, lev: int, s: Store) returns (q: int)
    requires fuel > 0 && Placed(g, size, nplus, lo, re, stopst, ss, d) && ss < stopst && sp <= stop <= x.end && !IsEasy(g.strip[ss])
    ensures var r := Chosen(g, x, fuel, sp, stop, ss, stopst, lev, s);
            r.0.Done? ==> ComesTo(g, x, Config(ss, sp, s.pm), lo, stopst, stop, r.1.pm, q)
    decreases fuel, 0, 0
  {
    hide Runs, WellCompiled, Holds, ComesTo;
    var f := fuel - 1;
    var a := Config(ss, sp, s.pm);
    NextInside(g, lo, re, stopst, ss, d);
    q := stopst;
    match g.strip[ss]
    case OBACK_(i) =>
      var m := BackMove(x, s.pm, i, sp, stop);
      if m.Some? {
        BackInside(g, size, nplus, lo, re, stopst, ss, d);
        NextBackCloses(g, ss, i);
        BackMoveIff(x, s.pm, i, sp, stop, m.value);
        q := CallRuns(g, x, size, nplus, f, lo, re, stop, stopst, d, lev, a, Config(NextBack(g, ss, i) + 1, m.value, s.pm), s);
      }
    case OQUEST_(n) =>
      QuestInside(g, lo, re, stopst, ss, d);
      q := CallRuns(g, x, size, nplus, f, lo, re, stop, stopst, d, lev, a, a.(pc := ss + 1), s);
      FailureUndoes(g, x, f, sp, stop, ss + 1, stopst, lev, s);
      var r := Backtrack(g, x, f, sp, stop, ss + 1, stopst, lev, s);
      if r.0.NoMatch? { q := CallRuns(g, x, size, nplus, f, lo, re, stop, stopst, d, lev, a, a.(pc := ss + n + 1), r.1); }
    case OPLUS_(_) =>
      q := CallRuns(g, x, size, nplus, f, lo, re, stop, stopst, d + 1, lev + 1, a, a.(pc := ss + 1), s.(lastpos := SetLast(s.lastpos, lev + 1, sp)));
    case O_PLUS(n) => q := LoopRuns(g, x, size, nplus, f, lo, re, sp, stop, ss, stopst, d, lev, s);
    case OCH_(_) => q := ChoiceRuns(g, x, size, nplus, f, lo, re, sp, stop, ss, stopst, d, lev, s);
    case OLPAREN(i) =>
      var s' := s.(pm := SetStart(s.pm, i, sp));
      ParenMoves(s.pm, i, sp);
      q := CallRuns(g, x, size, nplus, f, lo, re, stop, stopst, d, lev, a, Config(ss + 1, sp, s'.pm), s');
    case ORPAREN(i) =>
      var s' := s.(pm := SetEnd(s.pm, i, sp));
      ParenMoves(s.pm, i, sp);
      q := CallRuns(g, x, size, nplus, f, lo, re, stop, stopst, d, lev, a, Config(ss + 1, sp, s'.pm), s');
    case _ =>
  }

  lemma {:induction false} LoopRuns(g: Guts, x: Subject, size: nat, nplus: int, f: nat, lo: int, re: Re,
                                    sp: int, stop: int, ss: int, stopst: int, d: int, lev: int, s: Store) returns (q: int)
    requires Placed(g, size, nplus, lo, re, stopst, ss, d) && ss < stopst && sp <= stop <= x.end && g.strip[ss].O_PLUS?
    ensures var r := Chosen(g, x, f + 1, sp, stop, ss, stopst, lev, s);
            r.0.Done? ==> ComesTo(g, x, Config(ss, sp, s.pm), lo, stopst, stop, r.1.pm, q)
    decreases f, 3, 0
  {
    hide Runs, WellCompiled, Holds, ComesTo;
    LoopInside(g, lo, re, stopst, ss, d);
    var n := g.strip[ss].back;
    var a := Config(ss, sp, s.pm);
    if sp == LastAt(s.lastpos, lev) {
      q := CallRuns(g, x, size, nplus, f, lo, re, stop, stopst, d - 1, lev - 1, a, a.(pc := ss + 1), s);
    } else {
      var s' := s.(lastpos := SetLast(s.lastpos, lev, sp));
      q := CallRuns(g, x, size, nplus, f, lo, re, stop, stopst, d, lev, a, a.(pc := ss - n + 1), s');
      FailureUndoes(g, x, f, sp, stop, ss - n + 1, stopst, lev, s');
      var r := Backtrack(g, x, f, sp, stop, ss - n + 1, stopst, lev, s');
      if r.0.NoMatch? { q := CallRuns(g, x, size, nplus, f, lo, re, stop, stopst, d - 1, lev - 1, a, a.(pc := ss + 1), r.1); }
    }
  }

  /** A choice: the search in a branch goes up to the end of that branch. */
  lemma {:induction false} ChoiceRuns(g: Guts, x: Subject, size: nat, nplus: int, f: nat, lo: int, re: Re,
                                      sp: int, stop: int, ss: int, stopst: int, d: int, lev: int, s: Store) returns (q: int)
    requires Placed(g, size, nplus, lo, re, stopst, ss, d) && ss < stopst && sp <= stop <= x.end && g.strip[ss].OCH_?
    ensures var r := Chosen(g, x, f + 1, sp, stop, ss, stopst, lev, s);
            r.0.Done? ==> ComesTo(g, x, Config(ss, sp, s.pm), lo, stopst, stop, r.1.pm, q)
    decreases f, 4, 0
  {
    var n := g.strip[ss].fwd;
    var a := Config(ss, sp, s.pm);
    var first, more := FirstBranchInside(g, lo, re, stopst, ss, d);
    OneMove(g, x, a, a.(pc := ss + 1));
    OneMove(g, x, a, a.(pc := ss + n));
    hide Runs, WellCompiled, Holds;
    q := BranchesRun(g, x, size, nplus, f, sp, stop, ss + 1, ss + n - 1, first, more, false, d, lev, s, a,
                     ss + n - 1 + AltsLen(more));
    assert ChoiceAt(g, ss);
  }

  lemma {:induction false} BranchesRun(g: Guts, x: Subject, size: nat, nplus: int, f: nat, sp: int, stop: int, ssub: int, esub: int,
                                       first: Re, more: Alts, last: bool, d: int, lev: int, s: Store, a: Config, end: int)
    returns (q: int)
    requires WellCompiled(g, size, nplus) && Trying(g, ssub, esub, first, more, last, d) && sp <= stop <= x.end
    requires Runs(g, x, a, Config(ssub, sp, s.pm)) && (!last ==> Runs(g, x, a, Config(esub + 1, sp, s.pm)))
    requires end == esub + if last then 0 else AltsLen(more)
    ensures var r := Branches(g, x, f, sp, stop, ssub, esub, lev, s);
            r.0.Done? ==> Runs(g, x, a, Config(q, stop, r.1.pm)) && BranchEnd(g, q) && ssub <= q <= end
    decreases f, 2, 2 * (|g.strip| - esub) + 1
  {
    hide Runs, WellCompiled, Holds;
    q := BacktrackRuns(g, x, size, nplus, f, ssub, first, sp, stop, ssub, esub, d, lev, s);
    FailureUndoes(g, x, f, sp, stop, ssub, esub, lev, s);
    var r := Backtrack(g, x, f, sp, stop, ssub, esub, lev, s);
    if r.0.Done? {
      RunsJoin(g, x, a, Config(ssub, sp, s.pm), Config(q, stop, r.1.pm));
    } else if r.0.NoMatch? && !last {
      NextBranchInside(g, ssub, esub, first, more, d);
      q := NextBranchRuns(g, x, size, nplus, f, sp, stop, esub, more, d, lev, r.1, a, end);
    }
  }

  lemma {:induction false} NextBranchRuns(g: Guts, x: Subject, size: nat, nplus: int, f: nat, sp: int, stop: int, esub: int,
                                          more: Alts, d: int, lev: int, s: Store, a: Config, end: int) returns (q: int)
    requires WellCompiled(g, size, nplus) && sp <= stop <= x.end && 0 <= esub && esub + 1 < |g.strip| && g.strip[esub + 1].OOR2?
    requires 1 <= g.strip[esub + 1].fwd && esub + 1 + g.strip[esub + 1].fwd < |g.strip|
    requires var e := esub + 1 + g.strip[esub + 1].fwd;
             && (g.strip[e].OOR2? <==> more.Or?)
             && (if more.Or? then Trying(g, esub + 2, e - 1, more.re, more.more, false, d)
                 else Trying(g, esub + 2, e, more.re, more, true, d))
             && end == if more.Or? then e - 1 + AltsLen(more.more) else e
    requires Runs(g, x, a, Config(esub + 1, sp, s.pm))
    ensures var e := esub + 1 + g.strip[esub + 1].fwd;
            var r := Branches(g, x, f, sp, stop, esub + 2, if more.Or? then e - 1 else e, lev, s);
            r.0.Done? ==> Runs(g, x, a, Config(q, stop, r.1.pm)) && BranchEnd(g, q) && esub < q <= end
    decreases f, 2, 2 * (|g.strip| - esub)
  {
    hide WellCompiled, Holds;
    var e := esub + 1 + g.strip[esub + 1].fwd;
    var c := Config(esub + 1, sp, s.pm);
    OneMove(g, x, c, c.(pc := esub + 2));
    RunsJoin(g, x, a, c, c.(pc := esub + 2));
    if more.Or? {
      OneMove(g, x, c, c.(pc := e));
      RunsJoin(g, x, a, c, c.(pc := e));
    }
    hide Runs;
    q := BranchesRun(g, x, size, nplus, f, sp, stop, esub + 2, if more.Or? then e - 1 else e, more.re,
                     if more.Or? then more.more else more, more.Last?, d, lev, s, a, end);
  }

  // ----- whether the run goes on -----

  /** A run of n moves that take no text. */
  ghost predicate StaysIn(g: Guts, x: Subject, n: nat, a: Config, b: Config)
    decreases n
  {
    if n == 0 then a == b else exists c: Config :: c.sp == a.sp && Moves(g, x, a, c) && StaysIn(g, x, n - 1, c, b)
  }

  /** From `a` the code can be gone through up to `b` without taking text. */
  ghost predicate Stays(g: Guts, x: Subject, a: Config, b: Config) {
    exists n: nat :: StaysIn(g, x, n, a, b)
  }

  lemma MovesForward(g: Guts, x: Subject, a: Config, b: Config)
    requires Moves(g, x, a, b)
    ensures a.sp <= b.sp
  {
  }

  lemma {:induction false} RunsForward(g: Guts, x: Subject, n: nat, a: Config, b: Config)
    requires RunsIn(g, x, n, a, b)
    ensures a.sp <= b.sp && (a.sp == b.sp ==> StaysIn(g, x, n, a, b))
    decreases n
  {
    hide Moves;
    if n > 0 {
      var c :| Moves(g, x, a, c) && RunsIn(g, x, n - 1, c, b);
      MovesForward(g, x, a, c);
      RunsForward(g, x, n - 1, c, b);
    }
  }

  lemma {:induction false} StaysRuns(g: Guts, x: Subject, n: nat, a: Config, b: Config)
    requires StaysIn(g, x, n, a, b)
    ensures RunsIn(g, x, n, a, b)
    decreases n
  {
    hide Moves;
    if n > 0 {
      var c: Config :| c.sp == a.sp && Moves(g, x, a, c) && StaysIn(g, x, n - 1, c, b);
      StaysRuns(g, x, n - 1, c, b);
    }
  }

  /** The run that backref() has found goes on to the stop state, with these or other sub-matches, if
      and only if the code behind the place that it came to can be gone through without taking text. */
  lemma GoesOnIff(g: Guts, x: Subject, q: int, stop: int, pm: seq<RegMatch>, stopst: int, pm': seq<RegMatch>)
    ensures Runs(g, x, Config(q, stop, pm), Config(stopst, stop, pm')) <==>
            Stays(g, x, Config(q, stop, pm), Config(stopst, stop, pm'))
  {
    var a, b := Config(q, stop, pm), Config(stopst, stop, pm');
    if Runs(g, x, a, b) {
      var n: nat :| RunsIn(g, x, n, a, b);
      RunsForward(g, x, n, a, b);
    }
    if Stays(g, x, a, b) {
      var n: nat :| StaysIn(g, x, n, a, b);
      StaysRuns(g, x, n, a, b);
    }
  }

  /** Both together: what a success is, and exactly when it is one of the whole expression. */
  lemma SuccessComesTo(g: Guts, x: Subject, size: nat, nplus: int, fuel: nat, lo: int, re: Re,
                       sp: int, stop: int, ss: int, stopst: int, d: int, lev: int, s: Store) returns (q: int)
    requires Placed(g, size, nplus, lo, re, stopst, ss, d) && sp <= stop <= x.end
    requires Backtrack(g, x, fuel, sp, stop, ss, stopst, lev, s).0.Done?
    ensures var pm := Backtrack(g, x, fuel, sp, stop, ss, stopst, lev, s).1.pm;
            && ComesTo(g, x, Config(ss, sp, s.pm), lo, stopst, stop, pm, q)
            && forall pm' ::
                 Runs(g, x, Config(q, stop, pm), Config(stopst, stop, pm')) <==>
                 Stays(g, x, Config(q, stop, pm), Config(stopst, stop, pm'))
  {
    hide Runs, Stays, Placed;
    q := BacktrackRuns(g, x, size, nplus, fuel, lo, re, sp, stop, ss, stopst, d, lev, s);
    var pm := Backtrack(g, x, fuel, sp, stop, ss, stopst, lev, s).1.pm;
    forall pm'
      ensures Runs(g, x, Config(q, stop, pm), Config(stopst, stop, pm')) <==>
              Stays(g, x, Config(q, stop, pm), Config(stopst, stop, pm'))
    {
      GoesOnIff(g, x, q, stop, pm, stopst, pm');
    }
  }
}
