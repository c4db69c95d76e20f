/** Expressions for which a search with back references never stops short: whatever stands behind a
    choice can be passed without text, so a run that comes to the end of a branch goes on to the end. */
module BranchTails {
  import opened Strip
  import opened Regex
  import opened Automaton
  import opened Captures
  import opened Backtracking
  import opened BackrefInPlace
  import opened BackRuns
  import opened Running
  import opened Matching
  import opened Promises

  // ----- the condition -----

  /** The code can be gone through without text, whatever the sub-matches are. */
  predicate Passable(re: Re)
    decreases re
  {
    match re
    case End(_) => true
    case Then(n, t) => PassableNode(n) && Passable(t)
  }

  predicate PassableNode(n: Node)
    decreases n
  {
    match n
    case One(a) => a.Rparen?
    case Bracket(k, b) => k.Quest? || (!k.Back? && Passable(b))
    case Choice(f, r) => Passable(f) || PassableAlts(r)
  }

  predicate PassableAlts(a: Alts)
    decreases a
  {
    match a
    case Last(re) => Passable(re)
    case Or(re, more) => Passable(re) || PassableAlts(more)
  }

  predicate Chooses(re: Re)
    decreases re
  {
    match re
    case End(_) => false
    case Then(n, t) => NodeChooses(n) || Chooses(t)
  }

  predicate NodeChooses(n: Node)
    decreases n
  {
    match n
    case One(_) => false
    case Bracket(_, b) => Chooses(b)
    case Choice(_, _) => true
  }

  /** What stands behind every choice can be passed; and no copy for a back reference has a choice. */
  predicate TailsPass(re: Re)
    decreases re
  {
    match re
    case End(_) => true
    case Then(n, t) => NodeTailsPass(n) && TailsPass(t) && (NodeChooses(n) ==> Passable(t))
  }

  predicate NodeTailsPass(n: Node)
    decreases n
  {
    match n
    case One(_) => true
    case Bracket(k, b) => if k.Back? then !Chooses(b) else TailsPass(b)
    case Choice(f, r) => TailsPass(f) && AltsTailsPass(r)
  }

  predicate AltsTailsPass(a: Alts)
    decreases a
  {
    match a
    case Last(re) => TailsPass(re)
    case Or(re, more) => TailsPass(re) && AltsTailsPass(more)
  }

  // ----- runs that take no text -----

  /** A run from p to q at the same place in the text, with these or other sub-matches. */
  ghost predicate Reaches(g: Guts, x: Subject, a: Config, q: int) {
    exists pm :: Runs(g, x, a, Config(q, a.sp, pm))
  }

  /** From p to q without text, whatever the sub-matches are. */
  ghost predicate Leads(g: Guts, x: Subject, sp: int, p: int, q: int) {
    forall pm :: Reaches(g, x, Config(p, sp, pm), q)
  }

  lemma ReachesHere(g: Guts, x: Subject, a: Config)
    ensures Reaches(g, x, a, a.pc)
  {
    RunsHere(g, x, a);
    assert Runs(g, x, a, Config(a.pc, a.sp, a.pm));
  }

  lemma StaysHere(g: Guts, x: Subject, sp: int, p: int)
    ensures Leads(g, x, sp, p, p)
  {
    hide Reaches;
    forall pm ensures Reaches(g, x, Config(p, sp, pm), p) { ReachesHere(g, x, Config(p, sp, pm)); }
  }

  lemma ReachesThen(g: Guts, x: Subject, a: Config, q: int, q': int)
    requires Reaches(g, x, a, q) && Leads(g, x, a.sp, q, q')
    ensures Reaches(g, x, a, q')
  {
    hide Runs;
    var pm :| Runs(g, x, a, Config(q, a.sp, pm));
    assert Reaches(g, x, Config(q, a.sp, pm), q');
    var pm' :| Runs(g, x, Config(q, a.sp, pm), Config(q', a.sp, pm'));
    RunsJoin(g, x, a, Config(q, a.sp, pm), Config(q', a.sp, pm'));
  }

  lemma LeadsThen(g: Guts, x: Subject, sp: int, p: int, q: int, q': int)
    requires Leads(g, x, sp, p, q) && Leads(g, x, sp, q, q')
    ensures Leads(g, x, sp, p, q')
  {
    hide Reaches;
    forall pm ensures Reaches(g, x, Config(p, sp, pm), q') { ReachesThen(g, x, Config(p, sp, pm), q, q'); }
  }

  /** A move that takes no text, and that may set a sub-match. */
  ghost predicate Steps(g: Guts, x: Subject, sp: int, p: int, q: int) {
    forall pm :: Moves(g, x, Config(p, sp, pm), Config(q, sp, Opened(g, p, sp, pm)))
  }

  /** The sub-matches behind the operator at p. */
  function Opened(g: Guts, p: int, sp: int, pm: seq<RegMatch>): seq<RegMatch> {
    if !(0 <= p < |g.strip|) then pm
    else if g.strip[p].OLPAREN? then SetStart(pm, g.strip[p].paren, sp)
    else if g.strip[p].ORPAREN? then SetEnd(pm, g.strip[p].paren, sp)
    else pm
  }

  lemma StepLeads(g: Guts, x: Subject, sp: int, p: int, q: int)
    requires Steps(g, x, sp, p, q)
    ensures Leads(g, x, sp, p, q)
  {
    hide Moves, Runs, Opened;
    forall pm ensures Reaches(g, x, Config(p, sp, pm), q) {
      OneMove(g, x, Config(p, sp, pm), Config(q, sp, Opened(g, p, sp, pm)));
    }
  }

  /** Over the operator in front of a part, or behind it. */
  lemma OverBracket(g: Guts, x: Subject, sp: int, p: int, k: Kind, n: nat)
    requires 0 <= p < |g.strip| && (g.strip[p] == Opener(k, n) || g.strip[p] == Closer(k, n)) && !k.Back?
    ensures Leads(g, x, sp, p, p + 1)
  {
    assert Steps(g, x, sp, p, p + 1);
    StepLeads(g, x, sp, p, p + 1);
  }

  /** Past a part that may be left out. */
  lemma OverQuest(g: Guts, x: Subject, sp: int, p: int, b: Re)
    requires Framed(g.strip, p, OQUEST_(1 + Len(b)), b, O_QUEST(1 + Len(b)))
    ensures Leads(g, x, sp, p, p + 2 + Len(b))
  {
    assert Steps(g, x, sp, p, p + 2 + Len(b));
    StepLeads(g, x, sp, p, p + 2 + Len(b));
  }

  lemma IntoBranch(g: Guts, x: Subject, sp: int, p: int)
    requires 0 <= p < |g.strip| && (g.strip[p].OCH_? || g.strip[p].OOR2?)
    ensures Leads(g, x, sp, p, p + 1)
  {
    assert Steps(g, x, sp, p, p + 1);
    StepLeads(g, x, sp, p, p + 1);
  }

  /** From the choice, or from a branch, to the next one. */
  lemma ToBranch(g: Guts, x: Subject, sp: int, p: int, q: int)
    requires 0 <= p < q < |g.strip| && g.strip[q].OOR2?
    requires g.strip[p] == OCH_(q - p) || g.strip[p] == OOR2(q - p)
    ensures Leads(g, x, sp, p, q)
  {
    assert Steps(g, x, sp, p, q);
    StepLeads(g, x, sp, p, q);
  }

  /** The operator at e ends a branch of a choice that ends in front of q. */
  predicate LeadsOut(g: Guts, e: int, q: int) {
    0 <= e < q <= |g.strip| &&
    ((g.strip[e].OOR1? && q == ChoiceEnd(g, e + 1) + 1) || (g.strip[e].O_CH? && q == e + 1))
  }

  lemma OutOfBranch(g: Guts, x: Subject, sp: int, e: int, q: int)
    requires LeadsOut(g, e, q)
    ensures Leads(g, x, sp, e, q)
  {
    assert Steps(g, x, sp, e, q);
    StepLeads(g, x, sp, e, q);
  }

  // ----- what is passable is passed -----

  lemma {:induction false} Passes(g: Guts, x: Subject, sp: int, p: int, re: Re)
    requires Holds(g.strip, p, re) && Passable(re)
    ensures Leads(g, x, sp, p, p + Len(re))
    decreases re, 0
  {
    hide Leads;
    match re
    case End(_) => StaysHere(g, x, sp, p);
    case Then(n, t) =>
      NodePasses(g, x, sp, p, n);
      Passes(g, x, sp, p + NodeLen(n), t);
      LeadsThen(g, x, sp, p, p + NodeLen(n), p + Len(re));
  }

  lemma {:induction false} NodePasses(g: Guts, x: Subject, sp: int, p: int, n: Node)
    requires NodeHolds(g.strip, p, n) && PassableNode(n)
    ensures Leads(g, x, sp, p, p + NodeLen(n))
    decreases n, 1
  {
    hide Leads;
    match n
    case One(atom) => OverBracket(g, x, sp, p, Group(atom.i), 0);
    case Bracket(k, b) => if k.Quest? { OverQuest(g, x, sp, p, b); } else { InnerPasses(g, x, sp, p, k, b); }
    case Choice(_, _) => ChoicePasses(g, x, sp, p, n);
  }

  lemma {:induction false} InnerPasses(g: Guts, x: Subject, sp: int, p: int, k: Kind, b: Re)
    requires Framed(g.strip, p, Opener(k, Len(b)), b, Closer(k, Len(b))) && !k.Back? && Passable(b)
    ensures Leads(g, x, sp, p, p + 2 + Len(b))
    decreases b, 1
  {
    hide Leads, Passable, Holds;
    var e := p + 1 + Len(b);
    OverBracket(g, x, sp, p, k, Len(b));
    Passes(g, x, sp, p + 1, b);
    LeadsThen(g, x, sp, p, p + 1, e);
    OverBracket(g, x, sp, e, k, Len(b));
    LeadsThen(g, x, sp, p, e, e + 1);
  }

  lemma {:induction false} ChoicePasses(g: Guts, x: Subject, sp: int, p: int, n: Node)
    requires n.Choice? && NodeHolds(g.strip, p, n) && PassableNode(n)
    ensures Leads(g, x, sp, p, p + NodeLen(n))
    decreases n, 0
  {
    hide Leads, Passable, PassableAlts, NodeHolds, Holds, AltsHold, ChoiceEnd, Len, NodeLen, AltsLen;
    var q, end := p + 2 + Len(n.first), p + NodeLen(n);
    ChoiceIs(g.strip, p, n);
    AltsChain(g, q, n.rest);
    if Passable(n.first) {
      BranchPasses(g, x, sp, p, n.first, end);
    } else {
      AltsFront(g.strip, q, n.rest);
      ToBranch(g, x, sp, p, q);
      AltsPass(g, x, sp, q, n.rest);
      LeadsThen(g, x, sp, p, q, end);
    }
  }

  /** Through a branch and out of the choice. */
  lemma {:induction false} BranchPasses(g: Guts, x: Subject, sp: int, p: int, b: Re, q: int)
    requires 0 <= p && p + 1 + Len(b) < q <= |g.strip| && (g.strip[p].OCH_? || g.strip[p].OOR2?)
    requires Holds(g.strip, p + 1, b) && Passable(b) && LeadsOut(g, p + 1 + Len(b), q)
    ensures Leads(g, x, sp, p, q)
    decreases b, 1
  {
    hide Leads, Passable, Holds;
    var e := p + 1 + Len(b);
    IntoBranch(g, x, sp, p);
    Passes(g, x, sp, p + 1, b);
    LeadsThen(g, x, sp, p, p + 1, e);
    OutOfBranch(g, x, sp, e, q);
    LeadsThen(g, x, sp, p, e, q);
  }

  lemma {:induction false} AltsPass(g: Guts, x: Subject, sp: int, p: int, r: Alts)
    requires AltsHold(g.strip, p, r) && PassableAlts(r)
    ensures Leads(g, x, sp, p, p + AltsLen(r))
    decreases r, 0
  {
    hide Leads, Passable, Holds, AltsHold, ChoiceEnd, Len, AltsLen;
    AltsAre(g.strip, p, r);
    var q, end := p + 2 + Len(r.re), p + AltsLen(r);
    if r.Or? { AltsChain(g, q, r.more); }
    if Passable(r.re) {
      BranchPasses(g, x, sp, p, r.re, end);
    } else {
      AltsFront(g.strip, q, r.more);
      ToBranch(g, x, sp, p, q);
      AltsPass(g, x, sp, q, r.more);
      LeadsThen(g, x, sp, p, q, end);
    }
  }

  // ----- from the end of a branch to the end of the code -----

  lemma {:induction false} EndsMeanChoice(g: Guts, p: int, re: Re, e: int)
    requires Holds(g.strip, p, re) && p <= e < p + Len(re) && BranchEnd(g, e)
    ensures Chooses(re)
    decreases re, 0
  {
    HoldsBounds(g.strip, p, re);
    var n := re.head;
    if e < p + NodeLen(n) { NodeEndsMeanChoice(g, p, n, e); } else { EndsMeanChoice(g, p + NodeLen(n), re.tail, e); }
  }

  lemma {:induction false} NodeEndsMeanChoice(g: Guts, p: int, n: Node, e: int)
    requires NodeHolds(g.strip, p, n) && p <= e < p + NodeLen(n) && BranchEnd(g, e)
    ensures NodeChooses(n)
    decreases n, 0
  {
    if n.Bracket? && p < e < p + 1 + Len(n.body) { EndsMeanChoice(g, p + 1, n.body, e); }
  }

  lemma {:induction false} Exits(g: Guts, x: Subject, sp: int, p: int, re: Re, e: int)
    requires Holds(g.strip, p, re) && p <= e < p + Len(re) && BranchEnd(g, e) && TailsPass(re)
    ensures Leads(g, x, sp, e, p + Len(re))
    decreases re, 0
  {
    hide Leads, Passable;
    HoldsBounds(g.strip, p, re);
    var n, q := re.head, p + NodeLen(re.head);
    if e < q {
      NodeEndsMeanChoice(g, p, n, e);
      NodeExits(g, x, sp, p, n, e);
      Passes(g, x, sp, q, re.tail);
      LeadsThen(g, x, sp, e, q, p + Len(re));
    } else {
      Exits(g, x, sp, q, re.tail, e);
    }
  }

  lemma {:induction false} NodeExits(g: Guts, x: Subject, sp: int, p: int, n: Node, e: int)
    requires NodeHolds(g.strip, p, n) && p <= e < p + NodeLen(n) && BranchEnd(g, e) && NodeTailsPass(n)
    ensures Leads(g, x, sp, e, p + NodeLen(n))
    decreases n, 1
  {
    hide Leads, Holds, TailsPass;
    match n
    case One(_) =>
    case Bracket(k, b) =>
      if k.Back? { EndsMeanChoice(g, p + 1, b, e); assert false; }
      var q := p + 1 + Len(b);
      Exits(g, x, sp, p + 1, b, e);
      OverBracket(g, x, sp, q, k, Len(b));
      LeadsThen(g, x, sp, e, q, q + 1);
    case Choice(_, _) => ChoiceExits(g, x, sp, p, n, e);
  }

  lemma {:induction false} ChoiceExits(g: Guts, x: Subject, sp: int, p: int, n: Node, e: int)
    requires n.Choice? && NodeHolds(g.strip, p, n) && p <= e < p + NodeLen(n) && BranchEnd(g, e) && NodeTailsPass(n)
    ensures Leads(g, x, sp, e, p + NodeLen(n))
    decreases n, 0
  {
    hide Leads, TailsPass, AltsTailsPass, NodeHolds, Holds, AltsHold, ChoiceEnd, Len, NodeLen, AltsLen;
    var q := p + 2 + Len(n.first);
    ChoiceIs(g.strip, p, n);
    AltsChain(g, q, n.rest);
    if e < q { BranchExits(g, x, sp, p, n.first, e, p + NodeLen(n)); } else { AltsExit(g, x, sp, q, n.rest, e); }
  }

  /** From the end of the branch, or of one inside it, out of the choice. */
  lemma {:induction false} BranchExits(g: Guts, x: Subject, sp: int, p: int, b: Re, e: int, q: int)
    requires 0 <= p && p + 1 + Len(b) < q <= |g.strip| && (g.strip[p].OCH_? || g.strip[p].OOR2?)
    requires Holds(g.strip, p + 1, b) && TailsPass(b) && LeadsOut(g, p + 1 + Len(b), q)
    requires p <= e <= p + 1 + Len(b) && BranchEnd(g, e)
    ensures Leads(g, x, sp, e, q)
    decreases b, 1
  {
    hide Leads, TailsPass, Holds;
    var end := p + 1 + Len(b);
    if e == end { StaysHere(g, x, sp, e); } else { Exits(g, x, sp, p + 1, b, e); }
    OutOfBranch(g, x, sp, end, q);
    LeadsThen(g, x, sp, e, end, q);
  }

  lemma {:induction false} AltsExit(g: Guts, x: Subject, sp: int, p: int, r: Alts, e: int)
    requires AltsHold(g.strip, p, r) && p <= e < p + AltsLen(r) && BranchEnd(g, e) && AltsTailsPass(r)
    ensures Leads(g, x, sp, e, p + AltsLen(r))
    decreases r, 0
  {
    hide Leads, TailsPass, Holds, AltsHold, ChoiceEnd, Len, AltsLen;
    AltsAre(g.strip, p, r);
    var q := p + 2 + Len(r.re);
    if r.Or? { AltsChain(g, q, r.more); }
    if e < q { BranchExits(g, x, sp, p, r.re, e, p + AltsLen(r)); } else { AltsExit(g, x, sp, q, r.more, e); }
  }

  // ----- so a success is one of the whole expression -----

  /** When what stands behind every choice can be passed without text, backref() succeeds only where
      a run leads to the stop state. */
  lemma SuccessIsWhole(g: Guts, x: Subject, size: nat, nplus: int, fuel: nat, lo: int, re: Re,
                       sp: int, stop: int, ss: int, stopst: int, d: int, lev: int, s: Store) returns (q: int)
    requires Placed(g, size, nplus, lo, re, stopst, ss, d) && sp <= stop <= x.end && TailsPass(re)
    requires Backtrack(g, x, fuel, sp, stop, ss, stopst, lev, s).0.Done?
    ensures var pm := Backtrack(g, x, fuel, sp, stop, ss, stopst, lev, s).1.pm;
            && ComesTo(g, x, Config(ss, sp, s.pm), lo, stopst, stop, pm, q)
            && Reaches(g, x, Config(q, stop, pm), stopst)
  {
    hide Runs, Backtrack, Reaches, TailsPass, WellCompiled;
    q := BacktrackRuns(g, x, size, nplus, fuel, lo, re, sp, stop, ss, stopst, d, lev, s);
    if q == stopst { StaysHere(g, x, stop, q); } else { Exits(g, x, stop, lo, re, q); }
  }

  /** So a match that is reported is one of the whole expression. */
  lemma AgreesOnTheWhole(m: Segment, re: Re, so: int, eo: int, pm: seq<RegMatch>)
    requires Whole(m, re) && BackAgrees(m, re, so, eo, pm) && TailsPass(re)
    ensures exists pm' :: Runs(m.g, m.x, Config(m.lo, so, Blank(m.g).pm), Config(m.hi, eo, pm'))
  {
    WholeIsPlaced(m, re);
    hide Runs, TailsPass, Blank, Whole, WellCompiled;
    var a := Config(m.lo, so, Blank(m.g).pm);
    var q :| ComesTo(m.g, m.x, a, m.lo, m.hi, eo, pm, q);
    var b := Config(q, eo, pm);
    if q == m.hi { StaysHere(m.g, m.x, eo, q); } else { Exits(m.g, m.x, eo, m.lo, re, q); }
    assert Reaches(m.g, m.x, b, m.hi);
    var pm' :| Runs(m.g, m.x, b, Config(m.hi, eo, pm'));
    RunsJoin(m.g, m.x, a, b, Config(m.hi, eo, pm'));
  }
}
