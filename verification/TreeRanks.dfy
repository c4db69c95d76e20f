/** A condition on an expression and a text under which backref() ends: no loop can be passed through
    without taking text.  The rank that it goes down in follows the tree. */
module TreeRanks {
  import opened Strip
  import opened Regex
  import opened Backtracking
  import opened Layout
  import opened BackNumbers
  import opened Ranks

  // ----- the condition -----

  /** backref() may come through `re` at place i of the text without taking any.  A back reference
      counts as one that may; through a choice it never comes, for a branch is searched up to its
      own end only. */
  predicate Idles(g: Guts, x: Subject, re: Re, i: int)
    decreases re
  {
    match re
    case End(_) => true
    case Then(n, t) => NodeIdles(g, x, n, i) && Idles(g, x, t, i)
  }

  predicate NodeIdles(g: Guts, x: Subject, n: Node, i: int)
    decreases n
  {
    match n
    case One(a) => EasyMove(g, x, AtomOp(a), i, i).Some?
    case Bracket(k, b) => k.Quest? || k.Back? || Idles(g, x, b, i)
    case Choice(_, _) => false
  }

  /** No loop of `re` can be passed through at place i without taking text. */
  predicate LoopsTake(g: Guts, x: Subject, re: Re, i: int)
    decreases re
  {
    match re
    case End(_) => true
    case Then(n, t) => NodeLoopsTake(g, x, n, i) && LoopsTake(g, x, t, i)
  }

  predicate NodeLoopsTake(g: Guts, x: Subject, n: Node, i: int)
    decreases n
  {
    match n
    case One(_) => true
    case Bracket(k, b) => k.Back? || (LoopsTake(g, x, b, i) && (k.Plus? ==> !Idles(g, x, b, i)))
    case Choice(f, r) => LoopsTake(g, x, f, i) && AltsLoopsTake(g, x, r, i)
  }

  predicate AltsLoopsTake(g: Guts, x: Subject, a: Alts, i: int)
    decreases a
  {
    match a
    case Last(re) => LoopsTake(g, x, re, i)
    case Or(re, more) => LoopsTake(g, x, re, i) && AltsLoopsTake(g, x, more, i)
  }

  // ----- ranks -----

  /** The rank of p in the code of `re` at pc, when what follows has rank `base`. */
  function RankAt(g: Guts, x: Subject, i: int, pc: int, re: Re, base: nat, p: int): nat
    decreases re, 0
  {
    match re
    case End(_) => base
    case Then(n, t) =>
      var m := pc + NodeLen(n);
      if p < m then NodeRank(g, x, i, pc, n, RankAt(g, x, i, m, t, base, m), p) else RankAt(g, x, i, m, t, base, p)
  }

  /** The rank of the operator that closes a bracketed part. */
  function CloserRank(g: Guts, x: Subject, i: int, pc: int, k: Kind, b: Re, base: nat): nat
    decreases b, 1
  {
    1 + if k.Plus? then Max(RankAt(g, x, i, pc + 1, b, 0, pc + 1), base) else base
  }

  function NodeRank(g: Guts, x: Subject, i: int, pc: int, n: Node, base: nat, p: int): nat
    decreases n, 0
  {
    match n
    case One(_) => if NodeIdles(g, x, n, i) then base + 1 else 0
    case Bracket(k, b) =>
      var c := CloserRank(g, x, i, pc, k, b, base);
      if p > pc then if k.Back? then 0 else RankAt(g, x, i, pc + 1, b, c, p)
      else 1 + if k.Back? then base else Max(if k.Quest? then base else 0, RankAt(g, x, i, pc + 1, b, c, pc + 1))
    case Choice(f, r) =>
      var m := pc + 2 + Len(f);
      if p == pc then 1 + Max(RankAt(g, x, i, pc + 1, f, 0, pc + 1), AltsTop(g, x, i, m, r))
      else if p < m then RankAt(g, x, i, pc + 1, f, 0, p)
      else AltsRank(g, x, i, m, r, p)
  }

  function AltsRank(g: Guts, x: Subject, i: int, pc: int, a: Alts, p: int): nat
    decreases a, 0
  {
    if p < pc + 2 + Len(a.re) then RankAt(g, x, i, pc + 1, a.re, 0, p)
    else match a
      case Last(_) => 0
      case Or(re, more) => AltsRank(g, x, i, pc + 2 + Len(re), more, p)
  }

  /** The greatest rank that a branch begins with. */
  function AltsTop(g: Guts, x: Subject, i: int, pc: int, a: Alts): nat
    decreases a, 0
  {
    var r := RankAt(g, x, i, pc + 1, a.re, 0, pc + 1);
    match a
    case Last(_) => r
    case Or(re, more) => Max(r, AltsTop(g, x, i, pc + 2 + Len(re), more))
  }

  // ----- goals -----

  /** The goal of a search that comes by at p in the code of `re`, when the goal behind is `stop`. */
  function GoalAt(pc: int, re: Re, stop: int, p: int): int
    decreases re, 0
  {
    match re
    case End(_) => stop
    case Then(n, t) => if p < pc + NodeLen(n) then NodeGoal(pc, n, stop, p) else GoalAt(pc + NodeLen(n), t, stop, p)
  }

  function NodeGoal(pc: int, n: Node, stop: int, p: int): int
    decreases n, 0
  {
    match n
    case One(_) => stop
    case Bracket(k, b) => if p <= pc then stop else if k.Back? then p else GoalAt(pc + 1, b, stop, p)
    case Choice(f, r) =>
      if p == pc then stop
      else if p < pc + 2 + Len(f) then GoalAt(pc + 1, f, pc + 1 + Len(f), p)
      else AltsGoal(pc + 2 + Len(f), r, p)
  }

  function AltsGoal(pc: int, a: Alts, p: int): int
    decreases a, 0
  {
    if p == pc then p
    else if p < pc + 2 + Len(a.re) then GoalAt(pc + 1, a.re, pc + 1 + Len(a.re), p)
    else match a
      case Last(_) => p
      case Or(re, more) => AltsGoal(pc + 2 + Len(re), more, p)
  }

  lemma {:induction false} AtEnd(g: Guts, x: Subject, i: int, pc: int, re: Re, base: nat, stop: int)
    ensures RankAt(g, x, i, pc, re, base, pc + Len(re)) == base && GoalAt(pc, re, stop, pc + Len(re)) == stop
    decreases re
  {
    if re.Then? { AtEnd(g, x, i, pc + NodeLen(re.head), re.tail, base, stop); }
  }

  // ----- where text must be taken, what follows does not matter -----

  lemma {:induction false} TakingHides(g: Guts, x: Subject, i: int, pc: int, re: Re, base: nat, base': nat)
    requires !Idles(g, x, re, i)
    ensures RankAt(g, x, i, pc, re, base, pc) == RankAt(g, x, i, pc, re, base', pc)
    decreases re, 0
  {
    match re
    case Then(n, t) =>
      var m := pc + NodeLen(n);
      if NodeIdles(g, x, n, i) { TakingHides(g, x, i, m, t, base, base'); }
      else { NodeTakingHides(g, x, i, pc, n, RankAt(g, x, i, m, t, base, m), RankAt(g, x, i, m, t, base', m)); }
  }

  lemma {:induction false} NodeTakingHides(g: Guts, x: Subject, i: int, pc: int, n: Node, base: nat, base': nat)
    requires !NodeIdles(g, x, n, i)
    ensures NodeRank(g, x, i, pc, n, base, pc) == NodeRank(g, x, i, pc, n, base', pc)
    decreases n, 0
  {
    if n.Bracket? {
      var k, b := n.kind, n.body;
      TakingHides(g, x, i, pc + 1, b, CloserRank(g, x, i, pc, k, b, base), CloserRank(g, x, i, pc, k, b, base'));
    }
  }

  // ----- ranks go down -----

  /** `h` and `e` are the ranks and goals of the code of `re` at pc. */
  ghost predicate Agrees(g: Guts, x: Subject, h: Rank, e: Goal, i: int, pc: int, re: Re, base: nat, stop: int) {
    forall p | pc <= p <= pc + Len(re) :: h(i, p) == RankAt(g, x, i, pc, re, base, p) && e(p) == GoalAt(pc, re, stop, p)
  }

  ghost predicate NodeAgrees(g: Guts, x: Subject, h: Rank, e: Goal, i: int, pc: int, n: Node, base: nat, stop: int) {
    && (forall p | pc <= p < pc + NodeLen(n) :: h(i, p) == NodeRank(g, x, i, pc, n, base, p) && e(p) == NodeGoal(pc, n, stop, p))
    && h(i, pc + NodeLen(n)) == base && e(pc + NodeLen(n)) == stop
  }

  ghost predicate AltsAgree(g: Guts, x: Subject, h: Rank, e: Goal, i: int, pc: int, a: Alts) {
    forall p | pc <= p < pc + AltsLen(a) :: h(i, p) == AltsRank(g, x, i, pc, a, p) && e(p) == AltsGoal(pc, a, p)
  }

  lemma {:induction false} TreeDown(size: nat, g: Guts, x: Subject, h: Rank, e: Goal, i: int, pc: int, re: Re, base: nat, stop: int, p: int)
    requires Holds(g.strip, pc, re) && Numbered(re, size) && LoopsTake(g, x, re, i)
    requires Agrees(g, x, h, e, i, pc, re, base, stop)
    requires pc <= p < pc + Len(re) && p < e(p)
    ensures 0 <= p < |g.strip| && DownAt(g, x, h, e, i, p)
    decreases re, 0
  {
    HoldsBounds(g.strip, pc, re);
    match re
    case Then(n, t) =>
      var m := pc + NodeLen(n);
      if p < m {
        HeadAgrees(g, x, h, e, i, pc, n, t, base, stop);
        NodeDown(size, g, x, h, e, i, pc, n, RankAt(g, x, i, m, t, base, m), stop, p);
      } else {
        TreeDown(size, g, x, h, e, i, m, t, base, stop, p);
      }
  }

  lemma HeadAgrees(g: Guts, x: Subject, h: Rank, e: Goal, i: int, pc: int, n: Node, t: Re, base: nat, stop: int)
    requires Agrees(g, x, h, e, i, pc, Then(n, t), base, stop)
    ensures var m := pc + NodeLen(n); NodeAgrees(g, x, h, e, i, pc, n, RankAt(g, x, i, m, t, base, m), stop)
  {
    var m := pc + NodeLen(n);
    assert GoalAt(m, t, stop, m) == stop by { GoalHere(m, t, stop); }
  }

  /** A search that comes by in front of a piece has the goal of what follows it. */
  lemma GoalHere(pc: int, re: Re, stop: int)
    ensures GoalAt(pc, re, stop, pc) == stop
  {
  }

  lemma BodyAgrees(g: Guts, x: Subject, h: Rank, e: Goal, i: int, pc: int, k: Kind, b: Re, base: nat, stop: int)
    requires NodeAgrees(g, x, h, e, i, pc, Bracket(k, b), base, stop) && !k.Back?
    ensures Agrees(g, x, h, e, i, pc + 1, b, CloserRank(g, x, i, pc, k, b, base), stop)
  {
  }

  lemma {:induction false} NodeDown(size: nat, g: Guts, x: Subject, h: Rank, e: Goal, i: int, pc: int, n: Node, base: nat, stop: int, p: int)
    requires NodeHolds(g.strip, pc, n) && NodeNumbered(n, size) && NodeLoopsTake(g, x, n, i)
    requires NodeAgrees(g, x, h, e, i, pc, n, base, stop)
    requires pc <= p < pc + NodeLen(n) && p < e(p)
    ensures 0 <= p < |g.strip| && DownAt(g, x, h, e, i, p)
    decreases n, 1
  {
    NodeHoldsBounds(g.strip, pc, n);
    match n
    case One(_) =>
    case Bracket(k, b) =>
      if !k.Back? {
        BodyAgrees(g, x, h, e, i, pc, k, b, base, stop);
        if pc < p < pc + 1 + Len(b) { TreeDown(size, g, x, h, e, i, pc + 1, b, CloserRank(g, x, i, pc, k, b, base), stop, p); }
        else { FrameDown(g, x, h, e, i, pc, k, b, base, stop, p); }
      } else {
        BackDown(g, x, h, e, i, pc, k.i, b, base, stop, p);
      }
    case Choice(_, _) => ChoiceDown(size, g, x, h, e, i, pc, n, base, stop, p);
  }

  lemma FrameDown(g: Guts, x: Subject, h: Rank, e: Goal, i: int, pc: int, k: Kind, b: Re, base: nat, stop: int, p: int)
    requires NodeHolds(g.strip, pc, Bracket(k, b)) && !k.Back? && (k.Plus? ==> !Idles(g, x, b, i))
    requires NodeAgrees(g, x, h, e, i, pc, Bracket(k, b), base, stop) && (p == pc || p == pc + 1 + Len(b))
    ensures 0 <= p < |g.strip| && DownAt(g, x, h, e, i, p)
  {
    var c := CloserRank(g, x, i, pc, k, b, base);
    BodyAgrees(g, x, h, e, i, pc, k, b, base, stop);
    GoalHere(pc + 1, b, stop);
    AtEnd(g, x, i, pc + 1, b, c, stop);
    if k.Plus? { TakingHides(g, x, i, pc + 1, b, c, 0); }
  }

  lemma BackDown(g: Guts, x: Subject, h: Rank, e: Goal, i: int, pc: int, k: nat, b: Re, base: nat, stop: int, p: int)
    requires NodeHolds(g.strip, pc, Bracket(Kind.Back(k), b)) && !HasBack(b, k)
    requires NodeAgrees(g, x, h, e, i, pc, Bracket(Kind.Back(k), b), base, stop) && pc <= p < pc + 2 + Len(b) && p < e(p)
    ensures 0 <= p < |g.strip| && DownAt(g, x, h, e, i, p)
  {
    BackParen(g, pc, k, b);
  }

  lemma {:induction false} ChoiceDown(size: nat, g: Guts, x: Subject, h: Rank, e: Goal, i: int, pc: int, n: Node, base: nat, stop: int, p: int)
    requires n.Choice? && NodeHolds(g.strip, pc, n) && NodeNumbered(n, size) && NodeLoopsTake(g, x, n, i)
    requires NodeAgrees(g, x, h, e, i, pc, n, base, stop) && pc <= p < pc + NodeLen(n) && p < e(p)
    ensures 0 <= p < |g.strip| && DownAt(g, x, h, e, i, p)
    decreases n, 0
  {
    var f, r := n.first, n.rest;
    var m := pc + 2 + Len(f);
    AltsHoldBounds(g.strip, m, r);
    BranchesAgree(g, x, h, e, i, pc, f, r, base, stop);
    hide NodeAgrees, RankAt, GoalAt, Holds, AltsHold;
    AtEnd(g, x, i, pc + 1, f, 0, m - 1);
    if p == pc {
      ChoiceTop(g, x, h, e, i, pc, f, r, base, stop);
    } else if p < m {
      TreeDown(size, g, x, h, e, i, pc + 1, f, 0, m - 1, p);
    } else {
      AltsDown(size, g, x, h, e, i, m, r, p);
    }
  }

  lemma BranchesAgree(g: Guts, x: Subject, h: Rank, e: Goal, i: int, pc: int, f: Re, r: Alts, base: nat, stop: int)
    requires NodeAgrees(g, x, h, e, i, pc, Choice(f, r), base, stop)
    ensures Agrees(g, x, h, e, i, pc + 1, f, 0, pc + 1 + Len(f)) && AltsAgree(g, x, h, e, i, pc + 2 + Len(f), r)
  {
    assert NodeLen(Choice(f, r)) == 2 + Len(f) + AltsLen(r);
  }

  lemma ChoiceTop(g: Guts, x: Subject, h: Rank, e: Goal, i: int, pc: int, f: Re, r: Alts, base: nat, stop: int)
    requires NodeHolds(g.strip, pc, Choice(f, r)) && NodeAgrees(g, x, h, e, i, pc, Choice(f, r), base, stop)
    requires Agrees(g, x, h, e, i, pc + 1, f, 0, pc + 1 + Len(f)) && AltsAgree(g, x, h, e, i, pc + 2 + Len(f), r)
    ensures 0 <= pc < |g.strip| && DownAt(g, x, h, e, i, pc)
  {
    var m := pc + 2 + Len(f);
    hide RankAt, GoalAt, Holds;
    assert Framed(g.strip, pc, OCH_(2 + Len(f)), f, OOR1(1 + Len(f)));
    GoalHere(pc + 1, f, m - 1);
    AltsFrame(g.strip, m, r);
    assert h(i, pc) == NodeRank(g, x, i, pc, Choice(f, r), base, pc);
    assert h(i, pc + 1) == RankAt(g, x, i, pc + 1, f, 0, pc + 1);
    AltsBranches(g, x, h, e, i, pc, m, r);
  }

  lemma {:induction false} AltsBranches(g: Guts, x: Subject, h: Rank, e: Goal, i: int, p: int, m: int, a: Alts)
    requires AltsHold(g.strip, m, a) && AltsAgree(g, x, h, e, i, m, a) && AltsTop(g, x, i, m, a) < h(i, p)
    ensures BranchesDown(g, h, e, i, p, m + 1, m + 1 + Len(a.re))
    decreases a
  {
    AltsHoldBounds(g.strip, m, a);
    GoalHere(m + 1, a.re, m + 1 + Len(a.re));
    match a
    case Last(re) =>
    case Or(re, more) =>
      assert AltsAgree(g, x, h, e, i, m + 2 + Len(re), more);
      AltsFrame(g.strip, m + 2 + Len(re), more);
      AltsBranches(g, x, h, e, i, p, m + 2 + Len(re), more);
  }

  lemma AltsFrame(s: seq<Op>, m: int, a: Alts)
    requires AltsHold(s, m, a)
    ensures 0 <= m && m + 2 + Len(a.re) <= |s| && s[m].OOR2?
    ensures if a.Or? then s[m].fwd == 2 + Len(a.re) && s[m + 1 + Len(a.re)].OOR1? && m + 2 + Len(a.re) < |s| && s[m + 2 + Len(a.re)].OOR2?
            else s[m].fwd == 1 + Len(a.re) && s[m + 1 + Len(a.re)].O_CH?
  {
    AltsHoldBounds(s, m, a);
    match a
    case Last(_) =>
    case Or(re, more) =>
      AltsHoldBounds(s, m + 2 + Len(re), more);
      AltsOpen(s, m + 2 + Len(re), more);
  }

  lemma AltsOpen(s: seq<Op>, m: int, a: Alts)
    requires AltsHold(s, m, a)
    ensures 0 <= m < |s| && s[m].OOR2?
  {
  }

  lemma {:induction false} AltsDown(size: nat, g: Guts, x: Subject, h: Rank, e: Goal, i: int, m: int, a: Alts, p: int)
    requires AltsHold(g.strip, m, a) && AltsNumbered(a, size) && AltsLoopsTake(g, x, a, i) && AltsAgree(g, x, h, e, i, m, a)
    requires m <= p < m + AltsLen(a) && p < e(p)
    ensures 0 <= p < |g.strip| && DownAt(g, x, h, e, i, p)
    decreases a, 0
  {
    AltsHoldBounds(g.strip, m, a);
    AtEnd(g, x, i, m + 1, a.re, 0, m + 1 + Len(a.re));
    if p < m + 2 + Len(a.re) {
      assert Agrees(g, x, h, e, i, m + 1, a.re, 0, m + 1 + Len(a.re));
      TreeDown(size, g, x, h, e, i, m + 1, a.re, 0, m + 1 + Len(a.re), p);
    } else {
      assert AltsAgree(g, x, h, e, i, m + 2 + Len(a.re), a.more);
      AltsDown(size, g, x, h, e, i, m + 2 + Len(a.re), a.more, p);
    }
  }

  // ----- the rank of a whole tree -----

  /** No rank in the code of `re` is more than this above what follows. */
  function Height(re: Re): nat
    decreases re
  {
    match re
    case End(_) => 0
    case Then(n, t) => NodeHeight(n) + Height(t)
  }

  function NodeHeight(n: Node): nat
    decreases n
  {
    match n
    case One(_) => 1
    case Bracket(_, b) => 2 + 2 * Height(b)
    case Choice(f, r) => 1 + Height(f) + AltsHeight(r)
  }

  function AltsHeight(a: Alts): nat
    decreases a
  {
    match a
    case Last(re) => Height(re)
    case Or(re, more) => Height(re) + AltsHeight(more)
  }

  lemma {:induction false} RankBounded(g: Guts, x: Subject, i: int, pc: int, re: Re, base: nat, p: int)
    ensures RankAt(g, x, i, pc, re, base, p) <= base + Height(re)
    decreases re, 0
  {
    match re
    case End(_) =>
    case Then(n, t) =>
      var m := pc + NodeLen(n);
      RankBounded(g, x, i, m, t, base, m);
      RankBounded(g, x, i, m, t, base, p);
      NodeRankBounded(g, x, i, pc, n, RankAt(g, x, i, m, t, base, m), p);
  }

  lemma {:induction false} NodeRankBounded(g: Guts, x: Subject, i: int, pc: int, n: Node, base: nat, p: int)
    ensures NodeRank(g, x, i, pc, n, base, p) <= base + NodeHeight(n)
    decreases n, 0
  {
    match n
    case One(_) =>
    case Bracket(k, b) =>
      var c := CloserRank(g, x, i, pc, k, b, base);
      RankBounded(g, x, i, pc + 1, b, 0, pc + 1);
      RankBounded(g, x, i, pc + 1, b, c, pc + 1);
      RankBounded(g, x, i, pc + 1, b, c, p);
    case Choice(f, r) =>
      RankBounded(g, x, i, pc + 1, f, 0, pc + 1);
      RankBounded(g, x, i, pc + 1, f, 0, p);
      AltsRankBounded(g, x, i, pc + 2 + Len(f), r, p);
  }

  lemma {:induction false} AltsRankBounded(g: Guts, x: Subject, i: int, pc: int, a: Alts, p: int)
    ensures AltsRank(g, x, i, pc, a, p) <= AltsHeight(a) && AltsTop(g, x, i, pc, a) <= AltsHeight(a)
    decreases a, 0
  {
    RankBounded(g, x, i, pc + 1, a.re, 0, p);
    RankBounded(g, x, i, pc + 1, a.re, 0, pc + 1);
    if a.Or? { AltsRankBounded(g, x, i, pc + 2 + Len(a.re), a.more, p); }
  }

  ghost function TreeRank(g: Guts, x: Subject, lo: int, re: Re): Rank {
    (i, p) => if lo <= p <= lo + Len(re) then RankAt(g, x, i, lo, re, 0, p) else 0
  }

  ghost function TreeGoal(lo: int, re: Re): Goal {
    p => if lo <= p <= lo + Len(re) then GoalAt(lo, re, lo + Len(re), p) else p
  }

  /** In no place of the text can a loop be passed through without taking text. */
  ghost predicate AllLoopsTake(g: Guts, x: Subject, re: Re) {
    forall i | x.begin <= i <= x.end :: LoopsTake(g, x, re, i)
  }

  lemma TreeIsRanked(size: nat, g: Guts, x: Subject, lo: int, re: Re)
    requires Holds(g.strip, lo, re) && Numbered(re, size) && AllLoopsTake(g, x, re)
    ensures Ranked(g, x, TreeRank(g, x, lo, re), TreeGoal(lo, re), Height(re))
    ensures TreeGoal(lo, re)(lo) == lo + Len(re)
  {
    hide DownAt, LoopsTake;
    var h, e := TreeRank(g, x, lo, re), TreeGoal(lo, re);
    forall i, p ensures h(i, p) <= Height(re) { RankBounded(g, x, i, lo, re, 0, p); }
    forall i, p | x.begin <= i <= x.end && 0 <= p < |g.strip| && p < e(p) ensures DownAt(g, x, h, e, i, p) {
      AtEnd(g, x, i, lo, re, 0, lo + Len(re));
      TreeDown(size, g, x, h, e, i, lo, re, 0, lo + Len(re), p);
    }
    GoalHere(lo, re, lo + Len(re));
  }

  /** The calls that a search over `left` characters of text may need. */
  function Plenty(re: Re, left: nat): nat {
    (left + 1) * (Height(re) + 1)
  }

  /** If no loop can be passed through without taking text, backref() ends, and its depth is bounded
      by the length of the text times a number that depends on the expression alone. */
  lemma BackrefEnds(size: nat, g: Guts, x: Subject, fuel: nat, lo: int, re: Re, sp: int, stop: int, lev: int, s: Store)
    requires Holds(g.strip, lo, re) && Numbered(re, size) && AllLoopsTake(g, x, re)
    requires x.begin <= sp <= stop <= x.end && fuel >= Plenty(re, stop - sp)
    ensures Backtrack(g, x, fuel, sp, stop, lo, lo + Len(re), lev, s).0 != OutOfFuel
  {
    var h, e := TreeRank(g, x, lo, re), TreeGoal(lo, re);
    TreeIsRanked(size, g, x, lo, re);
    RankBounded(g, x, sp, lo, re, 0, lo);
    var t: nat := Height(re) + 1;
    assert (stop - sp + 1) * t == (stop - sp) * t + t;
    Ends(g, x, h, e, Height(re), fuel, sp, stop, lo, lev, s);
  }
}
