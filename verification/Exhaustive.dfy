/** Where backref() tries everything: for expressions without choices whose loops repeat plain sequences it
    succeeds if and only if some run leads to the end. */
module Exhaustive {
  import opened Strip
  import opened Regex
  import opened Options
  import opened Captures
  import opened Backtracking
  import opened Layout
  import opened BackrefInPlace
  import opened BackRuns

  // ----- the condition -----

  /** Characters, anchors and groups, one after the other. */
  predicate Straight(b: Re)
    decreases b
  {
    match b
    case End(_) => true
    case Then(n, t) => (n.One? || (n.Bracket? && n.kind.Group? && Straight(n.body))) && Straight(t)
  }

  predicate TakesOne(a: Atom) {
    a.Chr? || a.Any? || a.AnyOf?
  }

  /** How many characters such a sequence takes. */
  function Gains(b: Re): nat
    decreases b
  {
    match b
    case End(_) => 0
    case Then(n, t) => NodeGains(n) + Gains(t)
  }

  function NodeGains(n: Node): nat
    decreases n
  {
    match n
    case One(a) => if TakesOne(a) then 1 else 0
    case Bracket(_, b) => Gains(b)
    case Choice(_, _) => 0
  }

  /** No choices, and every loop repeats a plain sequence that takes text. */
  predicate PlainLoops(re: Re)
    decreases re
  {
    match re
    case End(_) => true
    case Then(n, t) => NodePlainLoops(n) && PlainLoops(t)
  }

  predicate NodePlainLoops(n: Node)
    decreases n
  {
    match n
    case One(_) => true
    case Bracket(k, b) => if k.Plus? then Straight(b) && Gains(b) > 0 else PlainLoops(b)
    case Choice(_, _) => false
  }

  // ----- what that means for the strip -----

  predicate IsCharOp(op: Op) {
    op.OCHAR? || op.OANY? || op.OANYOF?
  }

  /** How many characters are taken between the last place where a loop was entered and the place k. */
  function Since(s: seq<Op>, k: int): nat
    decreases k
  {
    if k <= 0 || k > |s| || s[k - 1].OPLUS_? then 0
    else Since(s, k - 1) + if IsCharOp(s[k - 1]) then 1 else 0
  }

  predicate IsStep(op: Op) {
    IsConsuming(op) || op.OLPAREN? || op.ORPAREN?
  }

  /** What can stand at p. */
  ghost predicate Fits(g: Guts, p: int)
    requires 0 <= p < |g.strip|
  {
    var op, d := g.strip[p], Depth(g.strip, p);
    && !op.OCH_? && !op.OOR1? && !op.OOR2? && !op.O_CH?
    && (d == 0 || (d == 1 && (IsStep(op) || op.O_PLUS?)))
    && (op.O_PLUS? ==> d == 1 && Since(g.strip, p) > 0 && 1 <= op.back <= p && g.strip[p - op.back].OPLUS_?)
  }

  lemma OneFurther(s: seq<Op>, k: int)
    requires 0 <= k < |s|
    ensures Depth(s, k + 1) == Depth(s, k) + Weight(s[k])
    ensures Since(s, k + 1) == if s[k].OPLUS_? then 0 else Since(s, k) + if IsCharOp(s[k]) then 1 else 0
  {
  }

  lemma {:induction false} StraightGains(g: Guts, pc: int, b: Re)
    requires Straight(b) && Holds(g.strip, pc, b)
    ensures 0 <= pc && pc + Len(b) <= |g.strip| && Since(g.strip, pc + Len(b)) == Since(g.strip, pc) + Gains(b)
    decreases b
  {
    HoldsBounds(g.strip, pc, b);
    if b.Then? {
      var n := b.head;
      if n.One? {
        OneFurther(g.strip, pc);
      } else {
        assert Framed(g.strip, pc, Opener(n.kind, Len(n.body)), n.body, Closer(n.kind, Len(n.body)));
        StraightGains(g, pc + 1, n.body);
        OneFurther(g.strip, pc);
        OneFurther(g.strip, pc + 1 + Len(n.body));
      }
      StraightGains(g, pc + NodeLen(n), b.tail);
    }
  }

  lemma {:induction false} StraightFits(g: Guts, pc: int, b: Re, p: int)
    requires Straight(b) && Holds(g.strip, pc, b) && pc <= |g.strip| && Depth(g.strip, pc) == 1 && pc <= p < pc + Len(b)
    ensures 0 <= p < |g.strip| && Depth(g.strip, p) == 1 && IsStep(g.strip[p]) && Fits(g, p)
    decreases b
  {
    HoldsBounds(g.strip, pc, b);
    var n := b.head;
    var m := pc + NodeLen(n);
    NodeBalanced(g.strip, pc, n);
    if p >= m {
      StraightFits(g, m, b.tail, p);
    } else if n.Bracket? {
      FramedBalanced(g.strip, pc, Opener(n.kind, Len(n.body)), n.body, Closer(n.kind, Len(n.body)));
      if pc < p < m - 1 { StraightFits(g, pc + 1, n.body, p); }
    }
  }

  lemma {:induction false} AllFit(g: Guts, pc: int, re: Re, p: int)
    requires PlainLoops(re) && Holds(g.strip, pc, re) && pc <= |g.strip| && Depth(g.strip, pc) == 0 && pc <= p < pc + Len(re)
    ensures 0 <= p < |g.strip| && Fits(g, p)
    decreases re, 1
  {
    HoldsBounds(g.strip, pc, re);
    NodeBalanced(g.strip, pc, re.head);
    if p < pc + NodeLen(re.head) { NodeFits(g, pc, re.head, p); } else { AllFit(g, pc + NodeLen(re.head), re.tail, p); }
  }

  lemma {:induction false} NodeFits(g: Guts, pc: int, n: Node, p: int)
    requires NodePlainLoops(n) && NodeHolds(g.strip, pc, n) && pc <= |g.strip| && Depth(g.strip, pc) == 0 && pc <= p < pc + NodeLen(n)
    ensures 0 <= p < |g.strip| && Fits(g, p)
    decreases n, 0
  {
    NodeHoldsBounds(g.strip, pc, n);
    if n.Bracket? {
      FramedBalanced(g.strip, pc, Opener(n.kind, Len(n.body)), n.body, Closer(n.kind, Len(n.body)));
      if n.kind.Plus? {
        OneFurther(g.strip, pc);
        StraightGains(g, pc + 1, n.body);
        if pc < p < pc + 1 + Len(n.body) { StraightFits(g, pc + 1, n.body, p); }
      } else if pc < p < pc + 1 + Len(n.body) {
        AllFit(g, pc + 1, n.body, p);
      }
    }
  }

  // ----- runs and their moves -----

  /** Some run leads from a to the end, at `stop`. */
  ghost predicate Leads(g: Guts, x: Subject, a: Config, stopst: int, stop: int) {
    exists pm :: Runs(g, x, a, Config(stopst, stop, pm))
  }

  lemma LeadsAfter(g: Guts, x: Subject, a: Config, b: Config, stopst: int, stop: int)
    requires Runs(g, x, a, b) && Leads(g, x, b, stopst, stop)
    ensures Leads(g, x, a, stopst, stop)
  {
    hide Runs;
    var pm :| Runs(g, x, b, Config(stopst, stop, pm));
    RunsJoin(g, x, a, b, Config(stopst, stop, pm));
  }

  /** Its first move, which does not go beyond `stop`. */
  lemma FirstMove(g: Guts, x: Subject, a: Config, stopst: int, stop: int) returns (b: Config)
    requires Leads(g, x, a, stopst, stop) && a.pc != stopst
    ensures Moves(g, x, a, b) && b.sp <= stop && Leads(g, x, b, stopst, stop)
  {
    hide Moves;
    var pm :| Runs(g, x, a, Config(stopst, stop, pm));
    var n: nat :| RunsIn(g, x, n, a, Config(stopst, stop, pm));
    b :| Moves(g, x, a, b) && RunsIn(g, x, n - 1, b, Config(stopst, stop, pm));
    assert Runs(g, x, b, Config(stopst, stop, pm));
    RunsForward(g, x, n - 1, b, Config(stopst, stop, pm));
  }

  lemma NoMoves(g: Guts, x: Subject, a: Config)
    requires 0 <= a.pc < |g.strip| && g.strip[a.pc].OEND?
    ensures forall c :: !Moves(g, x, a, c)
  {
  }

  /** At the end no move is left. */
  lemma NoMoveFromEnd(g: Guts, x: Subject, a: Config, stopst: int, stop: int)
    requires a.pc == stopst && 0 <= stopst < |g.strip| && g.strip[stopst].OEND?
    ensures Leads(g, x, a, stopst, stop) <==> a.sp == stop
  {
    if a.sp == stop {
      RunsHere(g, x, a);
      assert Runs(g, x, a, Config(stopst, stop, a.pm));
    }
    if Leads(g, x, a, stopst, stop) {
      var pm :| Runs(g, x, a, Config(stopst, stop, pm));
      var n: nat :| RunsIn(g, x, n, a, Config(stopst, stop, pm));
      NoMoves(g, x, a);
      hide Moves;
      assert n == 0;
    }
  }

  /** An operator that leaves no choice has one move, and no further than `stop` it is that of backref(). */
  lemma EasyMoveOnly(g: Guts, x: Subject, a: Config, b: Config, stop: int)
    requires 0 <= a.pc < |g.strip| && IsEasy(g.strip[a.pc]) && Moves(g, x, a, b) && b.sp <= stop <= x.end && a.sp <= stop
    ensures b == Config(EasyNext(g, a.pc), b.sp, a.pm) && EasyMove(g, x, g.strip[a.pc], a.sp, stop) == Some(b.sp)
  {
    hide EasyMove, OpTakes;
    EasyMoveIff(g, x, g.strip[a.pc], a.sp, stop, b.sp);
    StandsStill(g, x, g.strip[a.pc], a.sp);
  }

  lemma StandsStill(g: Guts, x: Subject, op: Op, i: int)
    ensures op.O_QUEST? || op.OOR1? ==> OpTakes(g, x, op, i, i)
  {
  }

  lemma ClosesOnly(g: Guts, i: nat, p: int, q: int)
    requires Closes(g, i, p, q)
    ensures q == NextBack(g, p, i)
    decreases q - p
  {
    if g.strip[p] != O_BACK(i) { ClosesOnly(g, i, p + 1, q); }
  }

  /** So has a back reference, */
  lemma BackMoveOnly(g: Guts, x: Subject, a: Config, b: Config, stop: int)
    requires 0 <= a.pc < |g.strip| && g.strip[a.pc].OBACK_? && Moves(g, x, a, b) && b.sp <= stop
    ensures b == Config(NextBack(g, a.pc, g.strip[a.pc].paren) + 1, b.sp, a.pm)
    ensures BackMove(x, a.pm, g.strip[a.pc].paren, a.sp, stop) == Some(b.sp)
  {
    var i := g.strip[a.pc].paren;
    hide TakesCopy, BackMove;
    ClosesOnly(g, i, a.pc, b.pc - 1);
    BackMoveIff(x, a.pm, i, a.sp, stop, b.sp);
  }

  /** and a parenthesis. */
  lemma ParenMoveOnly(g: Guts, x: Subject, a: Config, b: Config)
    requires 0 <= a.pc < |g.strip| && Moves(g, x, a, b)
    ensures g.strip[a.pc].OLPAREN? ==> b == Config(a.pc + 1, a.sp, SetStart(a.pm, g.strip[a.pc].paren, a.sp))
    ensures g.strip[a.pc].ORPAREN? ==> b == Config(a.pc + 1, a.sp, SetEnd(a.pm, g.strip[a.pc].paren, a.sp))
  {
  }

  // ----- the search tries everything -----

  /** A place that the search comes to, and what it knows of the loop that it is in. */
  ghost predicate There(g: Guts, size: nat, nplus: int, lo: int, re: Re, stopst: int, ss: int, sp: int, lev: int, s: Store) {
    && Placed(g, size, nplus, lo, re, stopst, ss, lev) && PlainLoops(re) && Depth(g.strip, lo) == 0 && g.strip[stopst].OEND?
    && |s.lastpos| == nplus + 1
    && (lev == 1 ==> |s.lastpos| >= 2 && sp == s.lastpos[1] + Since(g.strip, ss))
  }

  /** What the place before the next operator offers. */
  lemma ThereFits(g: Guts, size: nat, nplus: int, lo: int, re: Re, stopst: int, ss: int, sp: int, lev: int, s: Store)
    requires There(g, size, nplus, lo, re, stopst, ss, sp, lev, s) && ss < stopst
    ensures 0 <= ss < |g.strip| && Fits(g, ss) && lev == Depth(g.strip, ss) && WellCompiledAt(g, size, nplus, ss)
  {
    AllFit(g, lo, re, ss);
  }

  lemma {:induction false} EasyLeads(g: Guts, x: Subject, size: nat, nplus: int, lo: int, re: Re, stopst: int,
                                     sp: int, stop: int, ss: int, lev: int, s: Store)
    requires There(g, size, nplus, lo, re, stopst, ss, sp, lev, s) && sp <= stop <= x.end
    requires Leads(g, x, Config(ss, sp, s.pm), stopst, stop)
    ensures var w := EasyWay(g, x, sp, stop, ss, stopst);
            && !w.Fails? && (w.Arrives? ==> w.sp == stop)
            && (w.Choose? ==> 0 <= w.ss < stopst < |g.strip| && w.sp <= stop && There(g, size, nplus, lo, re, stopst, w.ss, w.sp, lev, s)
                              && !IsEasy(g.strip[w.ss]) && Leads(g, x, Config(w.ss, w.sp, s.pm), stopst, stop))
    decreases stopst - ss
  {
    hide Leads, Moves, WellCompiled, Holds, Fits, PlainLoops;
    var a := Config(ss, sp, s.pm);
    if ss == stopst {
      NoMoveFromEnd(g, x, a, stopst, stop);
    } else if IsEasy(g.strip[ss]) {
      var b := FirstMove(g, x, a, stopst, stop);
      EasyMoveOnly(g, x, a, b, stop);
      EasyNextInside(g, lo, re, stopst, ss, lev);
      ThereNext(g, x, size, nplus, lo, re, stopst, ss, sp, lev, s, stop);
      EasyLeads(g, x, size, nplus, lo, re, stopst, b.sp, stop, b.pc, lev, s);
    }
  }

  /** Behind an easy operator as much has been taken as it takes. */
  lemma ThereNext(g: Guts, x: Subject, size: nat, nplus: int, lo: int, re: Re, stopst: int, ss: int, sp: int, lev: int, s: Store, stop: int)
    requires There(g, size, nplus, lo, re, stopst, ss, sp, lev, s) && ss < stopst && IsEasy(g.strip[ss])
    requires EasyMove(g, x, g.strip[ss], sp, stop).Some?
    ensures There(g, size, nplus, lo, re, stopst, EasyNext(g, ss), EasyMove(g, x, g.strip[ss], sp, stop).value, lev, s)
  {
    ThereFits(g, size, nplus, lo, re, stopst, ss, sp, lev, s);
    EasyNextInside(g, lo, re, stopst, ss, lev);
    OneFurther(g.strip, ss);
    hide WellCompiled, Holds, PlainLoops, Depth, Since;
  }

  /** When backref() does not find anything, no run leads to the end. */
  lemma {:induction false} TriesAll(g: Guts, x: Subject, size: nat, nplus: int, fuel: nat, lo: int, re: Re, stopst: int,
                                    sp: int, stop: int, ss: int, lev: int, s: Store)
    requires There(g, size, nplus, lo, re, stopst, ss, sp, lev, s) && sp <= stop <= x.end
    requires Backtrack(g, x, fuel, sp, stop, ss, stopst, lev, s).0.NoMatch?
    ensures !Leads(g, x, Config(ss, sp, s.pm), stopst, stop)
    decreases fuel, 1, 0
  {
    hide Leads, There, Chosen;
    if Leads(g, x, Config(ss, sp, s.pm), stopst, stop) {
      EasyLeads(g, x, size, nplus, lo, re, stopst, sp, stop, ss, lev, s);
      var w := EasyWay(g, x, sp, stop, ss, stopst);
      if w.Choose? { ChosenTriesAll(g, x, size, nplus, fuel, lo, re, stopst, w.sp, stop, w.ss, lev, s); }
    }
  }

  lemma {:induction false} ChosenTriesAll(g: Guts, x: Subject, size: nat, nplus: int, fuel: nat, lo: int, re: Re, stopst: int,
                                          sp: int, stop: int, ss: int, lev: int, s: Store)
    requires There(g, size, nplus, lo, re, stopst, ss, sp, lev, s) && sp <= stop <= x.end
    requires 0 <= ss < stopst < |g.strip| && !IsEasy(g.strip[ss])
    requires fuel > 0 && Chosen(g, x, fuel, sp, stop, ss, stopst, lev, s).0.NoMatch?
    ensures !Leads(g, x, Config(ss, sp, s.pm), stopst, stop)
    decreases fuel, 0, 1
  {
    ThereFits(g, size, nplus, lo, re, stopst, ss, sp, lev, s);
    hide Leads, There, Moves, Fits, Chosen, WellCompiledAt, Depth;
    match g.strip[ss]
    case OBACK_(_) => BackTriesAll(g, x, size, nplus, fuel, lo, re, stopst, sp, stop, ss, lev, s);
    case OQUEST_(_) => QuestTriesAll(g, x, size, nplus, fuel, lo, re, stopst, sp, stop, ss, lev, s);
    case OPLUS_(_) => EnterTriesAll(g, x, size, nplus, fuel, lo, re, stopst, sp, stop, ss, lev, s);
    case O_PLUS(_) => AgainTriesAll(g, x, size, nplus, fuel, lo, re, stopst, sp, stop, ss, lev, s);
    case OLPAREN(_) => ParenTriesAll(g, x, size, nplus, fuel, lo, re, stopst, sp, stop, ss, lev, s);
    case ORPAREN(_) => ParenTriesAll(g, x, size, nplus, fuel, lo, re, stopst, sp, stop, ss, lev, s);
    case _ => DeadEnd(g, x, Config(ss, sp, s.pm), stopst, stop);
  }

  lemma {:induction false} BackTriesAll(g: Guts, x: Subject, size: nat, nplus: int, fuel: nat, lo: int, re: Re, stopst: int,
                                        sp: int, stop: int, ss: int, lev: int, s: Store)
    requires There(g, size, nplus, lo, re, stopst, ss, sp, lev, s) && sp <= stop <= x.end
    requires 0 <= ss < stopst < |g.strip| && g.strip[ss].OBACK_?
    requires fuel > 0 && Chosen(g, x, fuel, sp, stop, ss, stopst, lev, s).0.NoMatch?
    ensures !Leads(g, x, Config(ss, sp, s.pm), stopst, stop)
    decreases fuel, 0, 0
  {
    hide Leads, There, Moves, Fits, Backtrack, Branches, WellCompiledAt, NextBack, BackMove, SetStart, SetEnd, Depth, ChoiceEnd;
    var f, a := fuel - 1, Config(ss, sp, s.pm);
    if Leads(g, x, a, stopst, stop) {
      var b := FirstMove(g, x, a, stopst, stop);
      BackMoveOnly(g, x, a, b, stop);
      ThereBack(g, size, nplus, lo, re, stopst, ss, sp, lev, s, b.sp);
      TriesAll(g, x, size, nplus, f, lo, re, stopst, b.sp, stop, b.pc, lev, s);
    }
  }

  lemma {:induction false} QuestTriesAll(g: Guts, x: Subject, size: nat, nplus: int, fuel: nat, lo: int, re: Re, stopst: int,
                                         sp: int, stop: int, ss: int, lev: int, s: Store)
    requires There(g, size, nplus, lo, re, stopst, ss, sp, lev, s) && sp <= stop <= x.end
    requires 0 <= ss < stopst < |g.strip| && g.strip[ss].OQUEST_?
    requires fuel > 0 && Chosen(g, x, fuel, sp, stop, ss, stopst, lev, s).0.NoMatch?
    ensures !Leads(g, x, Config(ss, sp, s.pm), stopst, stop)
    decreases fuel, 0, 0
  {
    hide Leads, There, Moves, Fits, Backtrack, Branches, WellCompiledAt, NextBack, BackMove, SetStart, SetEnd, Depth, ChoiceEnd;
    var f, a := fuel - 1, Config(ss, sp, s.pm);
    if Leads(g, x, a, stopst, stop) {
      var b := FirstMove(g, x, a, stopst, stop);
      var next := ss + g.strip[ss].fwd + 1;
      FailureUndoes(g, x, f, sp, stop, ss + 1, stopst, lev, s);
      var r := Backtrack(g, x, f, sp, stop, ss + 1, stopst, lev, s);
      ThereQuest(g, size, nplus, lo, re, stopst, ss, sp, lev, s, r.1);
      QuestMoves(g, x, a, b);
      TriesAll(g, x, size, nplus, f, lo, re, stopst, sp, stop, ss + 1, lev, s);
      TriesAll(g, x, size, nplus, f, lo, re, stopst, sp, stop, next, lev, r.1);
    }
  }

  lemma {:induction false} EnterTriesAll(g: Guts, x: Subject, size: nat, nplus: int, fuel: nat, lo: int, re: Re, stopst: int,
                                         sp: int, stop: int, ss: int, lev: int, s: Store)
    requires There(g, size, nplus, lo, re, stopst, ss, sp, lev, s) && sp <= stop <= x.end
    requires 0 <= ss < stopst < |g.strip| && g.strip[ss].OPLUS_?
    requires fuel > 0 && Chosen(g, x, fuel, sp, stop, ss, stopst, lev, s).0.NoMatch?
    ensures !Leads(g, x, Config(ss, sp, s.pm), stopst, stop)
    decreases fuel, 0, 0
  {
    hide Leads, There, Moves, Fits, Backtrack, Branches, WellCompiledAt, NextBack, BackMove, SetStart, SetEnd, Depth, ChoiceEnd;
    var f, a := fuel - 1, Config(ss, sp, s.pm);
    if Leads(g, x, a, stopst, stop) {
      var b := FirstMove(g, x, a, stopst, stop);
      var s' := s.(lastpos := SetLast(s.lastpos, lev + 1, sp));
      ThereEnter(g, size, nplus, lo, re, stopst, ss, sp, lev, s);
      PlusMoves(g, x, a, b);
      TriesAll(g, x, size, nplus, f, lo, re, stopst, sp, stop, ss + 1, lev + 1, s');
    }
  }

  lemma {:induction false} AgainTriesAll(g: Guts, x: Subject, size: nat, nplus: int, fuel: nat, lo: int, re: Re, stopst: int,
                                         sp: int, stop: int, ss: int, lev: int, s: Store)
    requires There(g, size, nplus, lo, re, stopst, ss, sp, lev, s) && sp <= stop <= x.end
    requires 0 <= ss < stopst < |g.strip| && g.strip[ss].O_PLUS?
    requires fuel > 0 && Chosen(g, x, fuel, sp, stop, ss, stopst, lev, s).0.NoMatch?
    ensures !Leads(g, x, Config(ss, sp, s.pm), stopst, stop)
    decreases fuel, 0, 0
  {
    hide Leads, There, Moves, Fits, Backtrack, Branches, WellCompiledAt, NextBack, BackMove, SetStart, SetEnd, Depth, ChoiceEnd;
    var f, a := fuel - 1, Config(ss, sp, s.pm);
    if Leads(g, x, a, stopst, stop) {
      var b := FirstMove(g, x, a, stopst, stop);
      var s', back := s.(lastpos := SetLast(s.lastpos, lev, sp)), ss - g.strip[ss].back + 1;
      FailureUndoes(g, x, f, sp, stop, back, stopst, lev, s');
      var r := Backtrack(g, x, f, sp, stop, back, stopst, lev, s');
      ThereAgain(g, size, nplus, lo, re, stopst, ss, sp, lev, s, r.1);
      AgainMoves(g, x, a, b);
      TriesAll(g, x, size, nplus, f, lo, re, stopst, sp, stop, back, lev, s');
      TriesAll(g, x, size, nplus, f, lo, re, stopst, sp, stop, ss + 1, lev - 1, r.1);
    }
  }

  lemma {:induction false} ParenTriesAll(g: Guts, x: Subject, size: nat, nplus: int, fuel: nat, lo: int, re: Re, stopst: int,
                                         sp: int, stop: int, ss: int, lev: int, s: Store)
    requires There(g, size, nplus, lo, re, stopst, ss, sp, lev, s) && sp <= stop <= x.end
    requires 0 <= ss < stopst < |g.strip| && (g.strip[ss].OLPAREN? || g.strip[ss].ORPAREN?)
    requires fuel > 0 && Chosen(g, x, fuel, sp, stop, ss, stopst, lev, s).0.NoMatch?
    ensures !Leads(g, x, Config(ss, sp, s.pm), stopst, stop)
    decreases fuel, 0, 0
  {
    hide Leads, There, Moves, Fits, Backtrack, Branches, WellCompiledAt, NextBack, BackMove, SetStart, SetEnd, Depth, ChoiceEnd;
    var f, a := fuel - 1, Config(ss, sp, s.pm);
    if Leads(g, x, a, stopst, stop) {
      var b := FirstMove(g, x, a, stopst, stop);
      var i := g.strip[ss].paren;
      var s' := s.(pm := if g.strip[ss].OLPAREN? then SetStart(s.pm, i, sp) else SetEnd(s.pm, i, sp));
      ParenMoveOnly(g, x, a, b);
      ThereParen(g, size, nplus, lo, re, stopst, ss, sp, lev, s, s');
      TriesAll(g, x, size, nplus, f, lo, re, stopst, sp, stop, ss + 1, lev, s');
    }
  }

  /** From any other operator no move leads on. */
  lemma DeadEnd(g: Guts, x: Subject, a: Config, stopst: int, stop: int)
    requires 0 <= a.pc < |g.strip| && a.pc != stopst && Fits(g, a.pc) && !IsEasy(g.strip[a.pc])
    requires var op := g.strip[a.pc];
             !op.OBACK_? && !op.OQUEST_? && !op.OPLUS_? && !op.O_PLUS? && !op.OLPAREN? && !op.ORPAREN?
    ensures !Leads(g, x, a, stopst, stop)
  {
    hide Leads;
    if Leads(g, x, a, stopst, stop) { var b := FirstMove(g, x, a, stopst, stop); }
  }

  // the moves, one by one

  lemma QuestMoves(g: Guts, x: Subject, a: Config, b: Config)
    requires 0 <= a.pc < |g.strip| && g.strip[a.pc].OQUEST_? && Moves(g, x, a, b)
    ensures b == a.(pc := a.pc + 1) || b == a.(pc := a.pc + g.strip[a.pc].fwd + 1)
  {
  }

  lemma PlusMoves(g: Guts, x: Subject, a: Config, b: Config)
    requires 0 <= a.pc < |g.strip| && g.strip[a.pc].OPLUS_? && Moves(g, x, a, b)
    ensures b == a.(pc := a.pc + 1)
  {
  }

  lemma AgainMoves(g: Guts, x: Subject, a: Config, b: Config)
    requires 0 <= a.pc < |g.strip| && g.strip[a.pc].O_PLUS? && Moves(g, x, a, b)
    ensures b == a.(pc := a.pc + 1) || b == a.(pc := a.pc - g.strip[a.pc].back + 1)
  {
  }

  // where they lead

  lemma ThereBack(g: Guts, size: nat, nplus: int, lo: int, re: Re, stopst: int, ss: int, sp: int, lev: int, s: Store, sp': int)
    requires There(g, size, nplus, lo, re, stopst, ss, sp, lev, s) && ss < stopst && g.strip[ss].OBACK_?
    ensures There(g, size, nplus, lo, re, stopst, NextBack(g, ss, g.strip[ss].paren) + 1, sp', lev, s)
  {
    ThereFits(g, size, nplus, lo, re, stopst, ss, sp, lev, s);
    BackInside(g, size, nplus, lo, re, stopst, ss, lev);
    hide WellCompiled, Holds, PlainLoops, Depth, Since;
  }

  lemma ThereQuest(g: Guts, size: nat, nplus: int, lo: int, re: Re, stopst: int, ss: int, sp: int, lev: int, s: Store, r: Store)
    requires There(g, size, nplus, lo, re, stopst, ss, sp, lev, s) && ss < stopst && g.strip[ss].OQUEST_?
    requires |r.lastpos| == |s.lastpos|
    ensures There(g, size, nplus, lo, re, stopst, ss + 1, sp, lev, s)
    ensures There(g, size, nplus, lo, re, stopst, ss + g.strip[ss].fwd + 1, sp, lev, r)
  {
    ThereFits(g, size, nplus, lo, re, stopst, ss, sp, lev, s);
    QuestInside(g, lo, re, stopst, ss, lev);
    hide WellCompiled, Holds, PlainLoops, Depth, Since;
  }

  lemma ThereEnter(g: Guts, size: nat, nplus: int, lo: int, re: Re, stopst: int, ss: int, sp: int, lev: int, s: Store)
    requires There(g, size, nplus, lo, re, stopst, ss, sp, lev, s) && ss < stopst && g.strip[ss].OPLUS_?
    ensures There(g, size, nplus, lo, re, stopst, ss + 1, sp, lev + 1, s.(lastpos := SetLast(s.lastpos, lev + 1, sp)))
  {
    ThereFits(g, size, nplus, lo, re, stopst, ss, sp, lev, s);
    NextInside(g, lo, re, stopst, ss, lev);
    OneFurther(g.strip, ss);
    hide WellCompiled, Holds, PlainLoops, Depth, Since;
  }

  /** A pass has taken text, so it is followed by another one if there is one. */
  lemma ThereAgain(g: Guts, size: nat, nplus: int, lo: int, re: Re, stopst: int, ss: int, sp: int, lev: int, s: Store, r: Store)
    requires There(g, size, nplus, lo, re, stopst, ss, sp, lev, s) && ss < stopst && g.strip[ss].O_PLUS?
    requires |r.lastpos| == |s.lastpos|
    ensures lev == 1 && sp != LastAt(s.lastpos, lev)
    ensures There(g, size, nplus, lo, re, stopst, ss - g.strip[ss].back + 1, sp, lev, s.(lastpos := SetLast(s.lastpos, lev, sp)))
    ensures There(g, size, nplus, lo, re, stopst, ss + 1, sp, lev - 1, r)
  {
    ThereFits(g, size, nplus, lo, re, stopst, ss, sp, lev, s);
    LoopInside(g, lo, re, stopst, ss, lev);
    OneFurther(g.strip, ss - g.strip[ss].back);
    hide WellCompiled, Holds, PlainLoops, Depth, Since;
  }

  lemma ThereParen(g: Guts, size: nat, nplus: int, lo: int, re: Re, stopst: int, ss: int, sp: int, lev: int, s: Store, r: Store)
    requires There(g, size, nplus, lo, re, stopst, ss, sp, lev, s) && ss < stopst && (g.strip[ss].OLPAREN? || g.strip[ss].ORPAREN?)
    requires r.lastpos == s.lastpos
    ensures There(g, size, nplus, lo, re, stopst, ss + 1, sp, lev, r)
  {
    ThereFits(g, size, nplus, lo, re, stopst, ss, sp, lev, s);
    NextInside(g, lo, re, stopst, ss, lev);
    OneFurther(g.strip, ss);
    hide WellCompiled, Holds, PlainLoops, Depth, Since;
  }

  // ----- so it decides -----

  lemma NoChoiceInside(g: Guts, lo: int, re: Re)
    requires PlainLoops(re) && Holds(g.strip, lo, re) && lo <= |g.strip| && Depth(g.strip, lo) == 0
    ensures !HasChoice(g, lo, lo + Len(re))
  {
    hide PlainLoops, Holds;
    if HasChoice(g, lo, lo + Len(re)) {
      var p :| lo <= p < lo + Len(re) && ChoiceAt(g, p);
      AllFit(g, lo, re, p);
    }
  }

  /** On the whole of such an expression backref(), when it ends, succeeds if and only if some run leads to
      the end, every back reference on it taking what its group holds. */
  lemma Decides(g: Guts, x: Subject, size: nat, nplus: int, fuel: nat, lo: int, re: Re, sp: int, stop: int, s: Store)
    requires Placed(g, size, nplus, lo, re, lo + Len(re), lo, 0) && PlainLoops(re) && g.strip[lo + Len(re)].OEND?
    requires |s.lastpos| == nplus + 1 && sp <= stop <= x.end
    requires Backtrack(g, x, fuel, sp, stop, lo, lo + Len(re), 0, s).0 != OutOfFuel
    ensures Backtrack(g, x, fuel, sp, stop, lo, lo + Len(re), 0, s).0.Done? <==> Leads(g, x, Config(lo, sp, s.pm), lo + Len(re), stop)
  {
    var stopst := lo + Len(re);
    var r := Backtrack(g, x, fuel, sp, stop, lo, stopst, 0, s);
    NoChoiceInside(g, lo, re);
    assert There(g, size, nplus, lo, re, stopst, lo, sp, 0, s);
    hide Runs, Backtrack, There, WellCompiled, PlainLoops, Holds, Depth;
    if r.0.Done? {
      var q := BacktrackRuns(g, x, size, nplus, fuel, lo, re, sp, stop, lo, stopst, 0, 0, s);
      assert Runs(g, x, Config(lo, sp, s.pm), Config(stopst, stop, r.1.pm));
    } else {
      TriesAll(g, x, size, nplus, fuel, lo, re, stopst, sp, stop, lo, 0, s);
    }
  }
}
