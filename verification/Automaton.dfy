/** The strip read as an automaton, and why it accepts exactly the language of its tree. */
module Automaton {
  import opened Strip
  import opened Regex

  // ----- segments of emitted code are scannable -----

  lemma OpOkWidens(g: Guts, lo: int, hi: int, lo': int, hi': int, p: int)
    requires 1 <= lo' <= lo <= p < hi <= hi' < |g.strip|
    requires OpOk(g, lo, hi, p)
    ensures OpOk(g, lo', hi', p)
  {
  }

  /** What the strip holds for a branch and those behind it. */
  lemma AltsAre(s: seq<Op>, pc: int, a: Alts)
    requires AltsHold(s, pc, a)
    ensures 0 <= pc && pc + AltsLen(a) <= |s| && Holds(s, pc + 1, a.re)
    ensures s[pc] == OOR2(if a.Last? then 1 + Len(a.re) else 2 + Len(a.re))
    ensures s[pc + 1 + Len(a.re)] == if a.Last? then O_CH(2 + Len(a.re)) else OOR1(2 + Len(a.re))
    ensures a.Or? ==> AltsHold(s, pc + 2 + Len(a.re), a.more)
    ensures AltsLen(a) == 2 + Len(a.re) + if a.Or? then AltsLen(a.more) else 0
    ensures a.Or? ==> AltsLen(a.more) >= 2
  {
    AltsHoldBounds(s, pc, a);
  }

  lemma ChoiceIs(s: seq<Op>, pc: int, n: Node)
    requires NodeHolds(s, pc, n) && n.Choice?
    ensures 0 <= pc && pc + NodeLen(n) <= |s| && Holds(s, pc + 1, n.first) && AltsHold(s, pc + 2 + Len(n.first), n.rest)
    ensures s[pc] == OCH_(2 + Len(n.first)) && s[pc + 1 + Len(n.first)] == OOR1(1 + Len(n.first))
    ensures NodeLen(n) == 2 + Len(n.first) + AltsLen(n.rest) && AltsLen(n.rest) >= 2
  {
    NodeHoldsBounds(s, pc, n);
  }

  // the operators of a choice, one by one

  lemma FrontOk(g: Guts, lo: int, hi: int, p: int, n: nat)
    requires 1 <= lo <= p && p + 1 <= hi < |g.strip| && 1 <= n && p + n < hi
    requires g.strip[p] == OOR2(n) || g.strip[p] == OCH_(n)
    ensures OpOk(g, lo, hi, p)
  {
  }

  lemma BranchEndOk(g: Guts, lo: int, hi: int, p: int, end: int)
    requires 1 <= lo <= p && p < end < hi < |g.strip| && g.strip[p].OOR1? && ChoiceEnd(g, p + 1) == end && g.strip[end].O_CH?
    ensures OpOk(g, lo, hi, p)
  {
  }

  lemma ChoiceEndOk(g: Guts, lo: int, hi: int, p: int)
    requires 1 <= lo <= p < hi < |g.strip| && g.strip[p].O_CH?
    ensures OpOk(g, lo, hi, p)
  {
  }

  lemma {:induction false} AltsChain(g: Guts, pc: int, a: Alts)
    requires AltsHold(g.strip, pc, a)
    ensures 0 <= pc && pc + AltsLen(a) <= |g.strip|
    ensures ChoiceEnd(g, pc) == pc + AltsLen(a) - 1
    ensures g.strip[ChoiceEnd(g, pc)].O_CH?
    decreases a
  {
    AltsHoldBounds(g.strip, pc, a);
    match a
    case Last(re) =>
      var e := pc + 1 + Len(re);
      assert ChoiceEnd(g, pc) == ChoiceEnd(g, e) == e;
    case Or(re, more) =>
      AltsChain(g, pc + 2 + Len(re), more);
  }

  /** Every operator of the code of `re` is fine to scan, anywhere the code may lie. */
  lemma {:induction false} HoldsScan(g: Guts, pc: int, re: Re, p: int)
    requires Holds(g.strip, pc, re) && 1 <= pc <= p < pc + Len(re) < |g.strip|
    ensures OpOk(g, pc, pc + Len(re), p)
    decreases re, 0
  {
    match re
    case Then(n, t) =>
      var m := pc + NodeLen(n);
      if p < m {
        NodeScan(g, pc, n, p);
        OpOkWidens(g, pc, m, pc, pc + Len(re), p);
      } else {
        HoldsScan(g, m, t, p);
        OpOkWidens(g, m, m + Len(t), pc, pc + Len(re), p);
      }
  }

  lemma {:induction false} NodeScan(g: Guts, pc: int, n: Node, p: int)
    requires NodeHolds(g.strip, pc, n) && 1 <= pc <= p < pc + NodeLen(n) < |g.strip|
    ensures OpOk(g, pc, pc + NodeLen(n), p)
    decreases n, 1
  {
    match n
    case One(_) =>
    case Bracket(k, b) => BracketScan(g, pc, k, b, p);
    case Choice(f, r) =>
      ChoiceScan(g, pc, n, p);
  }

  lemma {:induction false} ChoiceScan(g: Guts, pc: int, n: Node, p: int)
    requires n.Choice? && NodeHolds(g.strip, pc, n) && 1 <= pc <= p < pc + NodeLen(n) < |g.strip|
    ensures OpOk(g, pc, pc + NodeLen(n), p)
    decreases n, 0
  {
    hide OpOk, EmptyEdge, NodeHolds, AltsHold, Holds, ChoiceEnd, Len, NodeLen, AltsLen;
    var f, r := n.first, n.rest;
    var m, hi := pc + 2 + Len(f), pc + NodeLen(n);
    ChoiceIs(g.strip, pc, n);
    if p >= m {
      AltsScan(g, m, r, p);
      OpOkWidens(g, m, hi, pc, hi, p);
    } else if p == pc {
      FrontOk(g, pc, hi, p, 2 + Len(f));
    } else if p < m - 1 {
      InnerScan(g, pc, f, hi, p);
    } else {
      AltsChain(g, m, r);
      BranchEndOk(g, pc, hi, p, hi - 1);
    }
  }

  lemma {:induction false} BracketScan(g: Guts, pc: int, k: Kind, b: Re, p: int)
    requires Framed(g.strip, pc, Opener(k, Len(b)), b, Closer(k, Len(b)))
    requires 1 <= pc <= p < pc + 2 + Len(b) < |g.strip|
    ensures OpOk(g, pc, pc + 2 + Len(b), p)
    decreases b, 2
  {
    if pc < p < pc + 1 + Len(b) { InnerScan(g, pc, b, pc + 2 + Len(b), p); }
  }

  lemma {:induction false} AltsScan(g: Guts, pc: int, a: Alts, p: int)
    requires AltsHold(g.strip, pc, a) && 1 <= pc <= p < pc + AltsLen(a) < |g.strip|
    ensures OpOk(g, pc, pc + AltsLen(a), p)
    decreases a, 0
  {
    hide OpOk, EmptyEdge, AltsHold, Holds, ChoiceEnd, Len, AltsLen;
    AltsAre(g.strip, pc, a);
    var m, hi := pc + 2 + Len(a.re), pc + AltsLen(a);
    if p == pc {
      FrontOk(g, pc, hi, p, if a.Last? then 1 + Len(a.re) else 2 + Len(a.re));
    } else if p < m - 1 {
      InnerScan(g, pc, a.re, hi, p);
    } else if a.Last? {
      ChoiceEndOk(g, pc, hi, p);
    } else if p == m - 1 {
      AltsChain(g, m, a.more);
      BranchEndOk(g, pc, hi, p, hi - 1);
    } else {
      AltsScan(g, m, a.more, p);
      OpOkWidens(g, m, hi, pc, hi, p);
    }
  }

  lemma {:induction false} InnerScan(g: Guts, lo: int, b: Re, hi: int, p: int)
    requires 1 <= lo && Holds(g.strip, lo + 1, b) && lo + 1 <= p < lo + 1 + Len(b) < hi < |g.strip|
    ensures OpOk(g, lo, hi, p)
    decreases b, 1
  {
    HoldsScan(g, lo + 1, b, p);
    OpOkWidens(g, lo + 1, lo + 1 + Len(b), lo, hi, p);
  }

  /** The segment that a tree's code fills can be scanned. */
  lemma SegmentScannable(g: Guts, pc: int, re: Re)
    requires Holds(g.strip, pc, re) && 1 <= pc && pc + Len(re) < |g.strip|
    ensures Scannable(g, pc, pc + Len(re))
  {
    var hi := pc + Len(re);
    forall p | pc <= p < hi ensures OpOk(g, pc, hi, p) {
      HoldsScan(g, pc, re, p);
    }
  }

  // ----- what is still to be matched from inside a segment -----

  /** A move of the automaton, from operator p at text position i to operator q at position j. */
  ghost predicate Edge(g: Guts, x: Subject, p: int, i: int, q: int, j: int) {
    0 <= p < |g.strip| &&
    ((i == j && EmptyEdge(g, p, q)) || (q == p + 1 && Takes(g, x, g.strip[p], i, j)))
  }

  /** The operator takes the text, or the line boundary, between i and j. */
  predicate Takes(g: Guts, x: Subject, op: Op, i: int, j: int) {
    if i == j then Consumes(g, op, FlagAt(g, x, i))
    else j == i + 1 && CharAt(x, i) && Consumes(g, op, Char(x.text[i]))
  }

  ghost predicate Star(g: Guts, x: Subject, b: Re, i: int, j: int) {
    exists n: nat :: Repeats(g, x, b, n, i, j)
  }

  /** From the operator at offset `o` in the code of `re`, the rest of the code matches the
      text between i and j. */
  ghost predicate Rest(g: Guts, x: Subject, re: Re, o: int, i: int, j: int)
    decreases re, 0
  {
    match re
    case End(_) => i == j
    case Then(n, t) =>
      if o < NodeLen(n) then exists k :: NodeRest(g, x, n, o, i, k) && Matches(g, x, t, k, j)
      else Rest(g, x, t, o - NodeLen(n), i, j)
  }

  ghost predicate NodeRest(g: Guts, x: Subject, n: Node, o: int, i: int, j: int)
    decreases n, 0
  {
    if o == 0 then NodeMatches(g, x, n, i, j)
    else if o == NodeLen(n) then i == j
    else match n
      case One(_) => false
      case Bracket(k, b) =>
        if k.Plus? then exists m :: Rest(g, x, b, o - 1, i, m) && Star(g, x, b, m, j)
        else Rest(g, x, b, o - 1, i, j)
      case Choice(f, r) =>
        if o <= 1 + Len(f) then Rest(g, x, f, o - 1, i, j) else AltsRest(g, x, r, o - 2 - Len(f), i, j)
  }

  ghost predicate AltsRest(g: Guts, x: Subject, a: Alts, o: int, i: int, j: int)
    decreases a, 0
  {
    if o == 0 then AltsMatch(g, x, a, i, j)
    else if o <= 1 + Len(a.re) then Rest(g, x, a.re, o - 1, i, j)
    else match a
      case Last(_) => i == j
      case Or(re, more) => AltsRest(g, x, more, o - 2 - Len(re), i, j)
  }

  lemma RestAtStart(g: Guts, x: Subject, re: Re, i: int, j: int)
    ensures Rest(g, x, re, 0, i, j) <==> Matches(g, x, re, i, j)
  {
  }

  lemma {:induction false} RestAtEnd(g: Guts, x: Subject, re: Re, i: int, j: int)
    ensures Rest(g, x, re, Len(re), i, j) <==> i == j
    decreases re
  {
    if re.Then? { RestAtEnd(g, x, re.tail, i, j); }
  }

  /** At the closing O_CH of a choice nothing is left. */
  lemma {:induction false} AltsRestAtEnd(g: Guts, x: Subject, a: Alts, i: int, j: int)
    ensures AltsRest(g, x, a, AltsLen(a) - 1, i, j) <==> i == j
    ensures AltsRest(g, x, a, AltsLen(a), i, j) <==> i == j
    decreases a
  {
    RestAtEnd(g, x, a.re, i, j);
    if a.Or? { AltsRestAtEnd(g, x, a.more, i, j); }
  }

  /** Moves never promise more than the text can keep: what is left to match after a move,
      with what the move took, was left to match before it. */
  lemma {:induction false} ReEdge(g: Guts, x: Subject, pc: int, re: Re, p: int, i: int, q: int, j: int, e: int)
    requires Holds(g.strip, pc, re) && 1 <= pc <= p < pc + Len(re) < |g.strip|
    requires Edge(g, x, p, i, q, j) && Rest(g, x, re, q - pc, j, e)
    ensures Rest(g, x, re, p - pc, i, e)
    decreases re, 0
  {
    match re
    case Then(n, t) =>
      var m := pc + NodeLen(n);
      if p < m {
        NodeScan(g, pc, n, p);
        if q < m {
          var k :| NodeRest(g, x, n, q - pc, j, k) && Matches(g, x, t, k, e);
          NodeEdge(g, x, pc, n, p, i, q, j, k);
        } else {
          RestAtStart(g, x, t, j, e);
          NodeEdge(g, x, pc, n, p, i, q, j, j);
        }
      } else {
        HoldsScan(g, m, t, p);
        ReEdge(g, x, m, t, p, i, q, j, e);
      }
  }

  lemma {:induction false} NodeEdge(g: Guts, x: Subject, pc: int, n: Node, p: int, i: int, q: int, j: int, e: int)
    requires NodeHolds(g.strip, pc, n) && 1 <= pc <= p < pc + NodeLen(n) < |g.strip|
    requires Edge(g, x, p, i, q, j) && NodeRest(g, x, n, q - pc, j, e)
    ensures NodeRest(g, x, n, p - pc, i, e)
    decreases n, 2
  {
    match n
    case One(a) =>
    case Bracket(k, b) =>
      if k.Plus? { LoopEdge(g, x, pc, b, p, i, q, j, e); } else { BracketEdge(g, x, pc, k, b, p, i, q, j, e); }
    case Choice(f, r) => ChoiceEdge(g, x, pc, n, p, i, q, j, e);
  }

  lemma {:induction false} BracketEdge(g: Guts, x: Subject, pc: int, k: Kind, b: Re, p: int, i: int, q: int, j: int, e: int)
    requires !k.Plus? && NodeHolds(g.strip, pc, Bracket(k, b)) && 1 <= pc <= p < pc + 2 + Len(b) < |g.strip|
    requires Edge(g, x, p, i, q, j) && NodeRest(g, x, Bracket(k, b), q - pc, j, e)
    ensures NodeRest(g, x, Bracket(k, b), p - pc, i, e)
    decreases b, 2
  {
    RestAtStart(g, x, b, i, e);
    RestAtEnd(g, x, b, i, e);
    if pc < p < pc + 1 + Len(b) { InnerEdge(g, x, pc, b, p, i, q, j, e); }
  }

  lemma {:induction false} InnerEdge(g: Guts, x: Subject, pc: int, b: Re, p: int, i: int, q: int, j: int, e: int)
    requires Holds(g.strip, pc + 1, b) && 0 <= pc < p < pc + 1 + Len(b) < |g.strip|
    requires Edge(g, x, p, i, q, j)
    ensures pc + 1 <= q <= pc + 1 + Len(b)
    ensures Rest(g, x, b, q - pc - 1, j, e) ==> Rest(g, x, b, p - pc - 1, i, e)
    decreases b, 1
  {
    HoldsScan(g, pc + 1, b, p);
    if Rest(g, x, b, q - pc - 1, j, e) { ReEdge(g, x, pc + 1, b, p, i, q, j, e); }
  }

  lemma {:induction false} LoopEdge(g: Guts, x: Subject, pc: int, b: Re, p: int, i: int, q: int, j: int, e: int)
    requires NodeHolds(g.strip, pc, Bracket(Plus, b)) && 1 <= pc <= p < pc + 2 + Len(b) < |g.strip|
    requires Edge(g, x, p, i, q, j) && NodeRest(g, x, Bracket(Plus, b), q - pc, j, e)
    ensures NodeRest(g, x, Bracket(Plus, b), p - pc, i, e)
    decreases b, 2
  {
    if p == pc {
      var m :| Rest(g, x, b, 0, i, m) && Star(g, x, b, m, e);
      RestAtStart(g, x, b, i, m);
      var n: nat :| Repeats(g, x, b, n, m, e);
      assert Repeats(g, x, b, n + 1, i, e);
    } else if p == pc + 1 + Len(b) {
      RestAtEnd(g, x, b, i, i);
      if q == pc {
        assert NodeMatches(g, x, Bracket(Plus, b), i, e);
      } else {
        assert Repeats(g, x, b, 0, i, e);
      }
      assert Star(g, x, b, i, e);
    } else {
      InnerEdge(g, x, pc, b, p, i, q, j, e);
      var m :| Rest(g, x, b, q - pc - 1, j, m) && Star(g, x, b, m, e);
      InnerEdge(g, x, pc, b, p, i, q, j, m);
    }
  }

  lemma {:induction false} ChoiceEdge(g: Guts, x: Subject, pc: int, n: Node, p: int, i: int, q: int, j: int, e: int)
    requires n.Choice? && NodeHolds(g.strip, pc, n) && 1 <= pc <= p < pc + NodeLen(n) < |g.strip|
    requires Edge(g, x, p, i, q, j) && NodeRest(g, x, n, q - pc, j, e)
    ensures NodeRest(g, x, n, p - pc, i, e)
    decreases n, 1
  {
    hide *;
    ChoiceIs(g.strip, pc, n);
    var m := pc + 2 + Len(n.first);
    if p < m - 1 {
      if p == pc { FrontEdge(g, x, pc, n, i, q, j, e); } else { FirstEdge(g, x, pc, n, p, i, q, j, e); }
    } else {
      if p == m - 1 { FirstEndEdge(g, x, pc, n, i, q, j, e); } else { RestEdge(g, x, pc, n, p, i, q, j, e); }
    }
  }

  lemma FrontEdge(g: Guts, x: Subject, pc: int, n: Node, i: int, q: int, j: int, e: int)
    requires n.Choice? && NodeHolds(g.strip, pc, n) && 0 <= pc
    requires Edge(g, x, pc, i, q, j) && NodeRest(g, x, n, q - pc, j, e)
    ensures NodeRest(g, x, n, 0, i, e)
  {
    hide *;
    ChoiceIs(g.strip, pc, n);
    FrontMoves(g, x, pc, i, q, j);
    ChoiceRestIs(g, x, n, q - pc, j, e);
    ChoiceRestIs(g, x, n, 0, i, e);
    RestAtStart(g, x, n.first, i, e);
    AltsRestIs(g, x, n.rest, 0, i, e);
  }

  lemma FirstEndEdge(g: Guts, x: Subject, pc: int, n: Node, i: int, q: int, j: int, e: int)
    requires n.Choice? && NodeHolds(g.strip, pc, n) && 1 <= pc && pc + NodeLen(n) < |g.strip|
    requires Edge(g, x, pc + 1 + Len(n.first), i, q, j) && NodeRest(g, x, n, q - pc, j, e)
    ensures NodeRest(g, x, n, 1 + Len(n.first), i, e)
  {
    hide *;
    var f, r := n.first, n.rest;
    ChoiceIs(g.strip, pc, n);
    AltsChain(g, pc + 2 + Len(f), r);
    BranchEndMoves(g, x, pc + 1 + Len(f), i, q, j);
    ChoiceRestIs(g, x, n, q - pc, j, e);
    AltsRestAtEnd(g, x, r, j, e);
    ChoiceRestIs(g, x, n, 1 + Len(f), i, e);
    RestAtEnd(g, x, f, i, e);
  }

  lemma {:induction false} FirstEdge(g: Guts, x: Subject, pc: int, n: Node, p: int, i: int, q: int, j: int, e: int)
    requires n.Choice? && NodeHolds(g.strip, pc, n) && 1 <= pc < p < pc + 1 + Len(n.first) && pc + NodeLen(n) < |g.strip|
    requires Edge(g, x, p, i, q, j) && NodeRest(g, x, n, q - pc, j, e)
    ensures NodeRest(g, x, n, p - pc, i, e)
    decreases n, 0
  {
    hide *;
    ChoiceIs(g.strip, pc, n);
    InnerEdge(g, x, pc, n.first, p, i, q, j, e);
    ChoiceRestIs(g, x, n, q - pc, j, e);
    ChoiceRestIs(g, x, n, p - pc, i, e);
  }

  lemma {:induction false} RestEdge(g: Guts, x: Subject, pc: int, n: Node, p: int, i: int, q: int, j: int, e: int)
    requires n.Choice? && NodeHolds(g.strip, pc, n) && 1 <= pc && pc + 2 + Len(n.first) <= p < pc + NodeLen(n) < |g.strip|
    requires Edge(g, x, p, i, q, j) && NodeRest(g, x, n, q - pc, j, e)
    ensures NodeRest(g, x, n, p - pc, i, e)
    decreases n, 0
  {
    hide *;
    var m, r := pc + 2 + Len(n.first), n.rest;
    ChoiceIs(g.strip, pc, n);
    AltsScan(g, m, r, p);
    StaysInside(g, x, m, m + AltsLen(r), p, i, q, j);
    ChoiceRestIs(g, x, n, q - pc, j, e);
    AltsRestAtEnd(g, x, r, j, e);
    AltsEdge(g, x, m, r, p, i, q, j, e);
    ChoiceRestIs(g, x, n, p - pc, i, e);
  }

  lemma ChoiceRestIs(g: Guts, x: Subject, n: Node, o: int, i: int, e: int)
    requires n.Choice?
    ensures o == 0 ==> (NodeRest(g, x, n, o, i, e) <==> Matches(g, x, n.first, i, e) || AltsMatch(g, x, n.rest, i, e))
    ensures 0 < o <= 1 + Len(n.first) ==> (NodeRest(g, x, n, o, i, e) <==> Rest(g, x, n.first, o - 1, i, e))
    ensures 1 + Len(n.first) < o < NodeLen(n) ==> (NodeRest(g, x, n, o, i, e) <==> AltsRest(g, x, n.rest, o - 2 - Len(n.first), i, e))
    ensures o == NodeLen(n) ==> (NodeRest(g, x, n, o, i, e) <==> i == e)
  {
    hide Rest, Matches, AltsRest, AltsMatch;
  }

  lemma {:induction false} AltsEdge(g: Guts, x: Subject, pc: int, a: Alts, p: int, i: int, q: int, j: int, e: int)
    requires AltsHold(g.strip, pc, a) && 1 <= pc <= p < pc + AltsLen(a) < |g.strip|
    requires Edge(g, x, p, i, q, j) && AltsRest(g, x, a, q - pc, j, e)
    ensures AltsRest(g, x, a, p - pc, i, e)
    decreases a, 0
  {
    hide AltsHold, Holds, Matches, AltsMatch, Edge, EmptyEdge, ChoiceEnd, Len, AltsLen, OpOk, AltsRest, Rest;
    AltsChain(g, pc, a);
    AltsAre(g.strip, pc, a);
    AltsRestIs(g, x, a, p - pc, i, e);
    AltsRestIs(g, x, a, q - pc, j, e);
    var m := pc + 2 + Len(a.re);
    if p == pc {
      FrontMoves(g, x, p, i, q, j);
      RestAtStart(g, x, a.re, i, e);
      if a.Or? { AltsRestIs(g, x, a.more, 0, i, e); }
    } else if p < m - 1 {
      InnerEdge(g, x, pc, a.re, p, i, q, j, e);
    } else if p == m - 1 {
      if a.Or? { AltsChain(g, m, a.more); }
      BranchEndMoves(g, x, p, i, q, j);
      RestAtEnd(g, x, a.re, i, e);
      AltsRestAtEnd(g, x, a, i, e);
    } else {
      AltsScan(g, m, a.more, p);
      StaysInside(g, x, m, m + AltsLen(a.more), p, i, q, j);
      AltsEdge(g, x, m, a.more, p, i, q, j, e);
    }
  }

  // where the operators of a choice lead

  lemma FrontMoves(g: Guts, x: Subject, p: int, i: int, q: int, j: int)
    requires Edge(g, x, p, i, q, j) && (g.strip[p].OOR2? || g.strip[p].OCH_?)
    ensures i == j && (q == p + 1 || q == p + g.strip[p].fwd)
    ensures g.strip[p].OOR2? && q != p + 1 ==> q < |g.strip| && (q >= 0 ==> !g.strip[q].O_CH?)
  {
  }

  lemma BranchEndMoves(g: Guts, x: Subject, p: int, i: int, q: int, j: int)
    requires Edge(g, x, p, i, q, j) && (g.strip[p].OOR1? || g.strip[p].O_CH?)
    ensures i == j && q == if g.strip[p].OOR1? then ChoiceEnd(g, p + 1) else p + 1
  {
  }

  lemma StaysInside(g: Guts, x: Subject, lo: int, hi: int, p: int, i: int, q: int, j: int)
    requires 1 <= lo <= p < hi < |g.strip| && OpOk(g, lo, hi, p) && Edge(g, x, p, i, q, j)
    ensures lo <= q <= hi
  {
  }

  /** What is left from a place inside a choice, part by part. */
  lemma AltsRestIs(g: Guts, x: Subject, a: Alts, o: int, i: int, e: int)
    ensures o == 0 ==> (AltsRest(g, x, a, o, i, e) <==> AltsMatch(g, x, a, i, e))
    ensures AltsMatch(g, x, a, i, e) <==> Matches(g, x, a.re, i, e) || (a.Or? && AltsMatch(g, x, a.more, i, e))
    ensures 0 < o <= 1 + Len(a.re) ==> (AltsRest(g, x, a, o, i, e) <==> Rest(g, x, a.re, o - 1, i, e))
    ensures o > 1 + Len(a.re) ==>
              (AltsRest(g, x, a, o, i, e) <==> if a.Or? then AltsRest(g, x, a.more, o - 2 - Len(a.re), i, e) else i == e)
  {
    hide Rest, Matches;
  }

  // ----- state sets along the text -----

  /** A state set for every text position from `from` to `upto`. */
  datatype Family = Family(g: Guts, x: Subject, lo: int, hi: int, from: int, upto: int, live: int -> set<int>) {

    /** No state is lost: `live(p)` is closed, and what its states take at p is in `live(p + 1)`. */
    ghost predicate Carries() {
      && 0 <= lo <= hi <= |g.strip|
      && (forall p | from <= p <= upto :: Closed(g, lo, hi, FlagAt(g, x, p), live(p)))
      && (forall p | from <= p < upto && CharAt(x, p) ::
            Shift(g, lo, hi, Char(x.text[p]), live(p)) <= live(p + 1))
    }
  }

  /** One move inside such a family of state sets. */
  lemma Follow(f: Family, p: int, i: int, q: int, j: int)
    requires f.Carries()
    requires f.lo <= p < f.hi && f.from <= i <= j <= f.upto && p in f.live(i) && Edge(f.g, f.x, p, i, q, j)
    ensures q in f.live(j)
  {
    assert ClosedAt(f.g, FlagAt(f.g, f.x, i), f.live(i), p);
    if i != j { assert q in Shift(f.g, f.lo, f.hi, Char(f.x.text[i]), f.live(i)); }
  }

  /** If the states keep `pc` at i and `re`, whose code lies at pc, matches from i to j, then
      they reach the end of the code at j. */
  lemma {:induction false} Flow(f: Family, pc: int, re: Re, i: int, j: int)
    requires f.Carries()
    requires Holds(f.g.strip, pc, re) && 1 <= f.lo <= pc && pc + Len(re) <= f.hi < |f.g.strip|
    requires f.from <= i && j <= f.upto && pc in f.live(i) && Matches(f.g, f.x, re, i, j)
    ensures pc + Len(re) in f.live(j)
    decreases re, 0, 0
  {
    hide Family.Carries;
    match re
    case End(_) =>
    case Then(n, t) =>
      var k := ThenSplits(f.g, f.x, n, t, i, j);
      MatchBounds(f.g, f.x, t, k, j);
      NodeBounds(f.g, f.x, n, i, k);
      NodeFlow(f, pc, n, i, k);
      Flow(f, pc + NodeLen(n), t, k, j);
  }

  lemma {:induction false} NodeFlow(f: Family, pc: int, n: Node, i: int, j: int)
    requires f.Carries()
    requires NodeHolds(f.g.strip, pc, n) && 1 <= f.lo <= pc && pc + NodeLen(n) <= f.hi < |f.g.strip|
    requires f.from <= i <= j <= f.upto && pc in f.live(i) && NodeMatches(f.g, f.x, n, i, j)
    ensures pc + NodeLen(n) in f.live(j)
    decreases n, 1, 0
  {
    hide Family.Carries, Matches, AltsMatch, Holds, AltsHold;
    match n
    case One(_) => Follow(f, pc, i, pc + 1, j);
    case Bracket(k, b) =>
      if k.Plus? {
        var c: nat :| Repeats(f.g, f.x, b, c, i, j) && c >= 1;
        LoopFlow(f, pc, b, c, i, j);
      } else {
        BracketFlow(f, pc, k, b, i, j);
      }
    case Choice(first, r) => ChoiceFlow(f, pc, n, i, j);
  }

  lemma {:induction false} ChoiceFlow(f: Family, pc: int, n: Node, i: int, j: int)
    requires f.Carries() && n.Choice?
    requires NodeHolds(f.g.strip, pc, n) && 1 <= f.lo <= pc && pc + NodeLen(n) <= f.hi < |f.g.strip|
    requires f.from <= i <= j <= f.upto && pc in f.live(i) && NodeMatches(f.g, f.x, n, i, j)
    ensures pc + NodeLen(n) in f.live(j)
    decreases n, 0, 0
  {
    hide Family.Carries, Matches, AltsMatch, Holds, AltsHold;
    var first, r := n.first, n.rest;
    if Matches(f.g, f.x, first, i, j) {
      BranchFlow(f, pc, OCH_(2 + Len(first)), first, 1 + Len(first), r, i, j);
    } else {
      Follow(f, pc, i, pc + 2 + Len(first), i);
      AltsFlow(f, pc + 2 + Len(first), r, i, j);
    }
  }

  lemma {:induction false} BracketFlow(f: Family, pc: int, k: Kind, b: Re, i: int, j: int)
    requires f.Carries()
    requires !k.Plus? && NodeHolds(f.g.strip, pc, Bracket(k, b)) && 1 <= f.lo <= pc && pc + 2 + Len(b) <= f.hi < |f.g.strip|
    requires f.from <= i <= j <= f.upto && pc in f.live(i) && NodeMatches(f.g, f.x, Bracket(k, b), i, j)
    ensures pc + 2 + Len(b) in f.live(j)
    decreases b, 2, 0
  {
    hide Family.Carries;
    if Matches(f.g, f.x, b, i, j) {
      Follow(f, pc, i, pc + 1, i);
      Flow(f, pc + 1, b, i, j);
    } else {
      Follow(f, pc, i, pc + 1 + Len(b), i);
    }
    Follow(f, pc + 1 + Len(b), j, pc + 2 + Len(b), j);
  }

  lemma {:induction false} LoopFlow(f: Family, pc: int, b: Re, c: nat, i: int, j: int)
    requires f.Carries()
    requires NodeHolds(f.g.strip, pc, Bracket(Plus, b)) && 1 <= f.lo <= pc && pc + 2 + Len(b) <= f.hi < |f.g.strip|
    requires f.from <= i <= j <= f.upto && pc in f.live(i) && Repeats(f.g, f.x, b, c, i, j) && c >= 1
    ensures pc + 2 + Len(b) in f.live(j)
    decreases b, 2, c
  {
    hide Family.Carries;
    var k :| Matches(f.g, f.x, b, i, k) && Repeats(f.g, f.x, b, c - 1, k, j);
    MatchBounds(f.g, f.x, b, i, k);
    RepeatBounds(f.g, f.x, b, c - 1, k, j);
    Follow(f, pc, i, pc + 1, i);
    Flow(f, pc + 1, b, i, k);
    if c == 1 {
      Follow(f, pc + 1 + Len(b), j, pc + 2 + Len(b), j);
    } else {
      Follow(f, pc + 1 + Len(b), k, pc, k);
      LoopFlow(f, pc, b, c - 1, k, j);
    }
  }

  /** A branch that is not the last of its choice: from its front, over its OOR1, past the O_CH. */
  lemma {:induction false} BranchFlow(f: Family, pc: int, front: Op, re: Re, back: nat, more: Alts, i: int, j: int)
    requires f.Carries() && (front == OCH_(2 + Len(re)) || front == OOR2(2 + Len(re)))
    requires Framed(f.g.strip, pc, front, re, OOR1(back)) && AltsHold(f.g.strip, pc + 2 + Len(re), more)
    requires 1 <= f.lo <= pc && pc + 2 + Len(re) + AltsLen(more) <= f.hi < |f.g.strip|
    requires f.from <= i <= j <= f.upto && pc in f.live(i) && Matches(f.g, f.x, re, i, j)
    ensures pc + 2 + Len(re) + AltsLen(more) in f.live(j)
    decreases re, 2, 0
  {
    hide Family.Carries, Holds, AltsHold, Matches;
    Follow(f, pc, i, pc + 1, i);
    Flow(f, pc + 1, re, i, j);
    OutOfChoice(f, pc + 1 + Len(re), more, j);
  }

  /** From the end of a branch past the end of its choice. */
  lemma OutOfChoice(f: Family, p: int, more: Alts, j: int)
    requires f.Carries() && 1 <= f.lo <= p && p + 1 + AltsLen(more) <= f.hi < |f.g.strip|
    requires f.g.strip[p].OOR1? && AltsHold(f.g.strip, p + 1, more)
    requires f.from <= j <= f.upto && p in f.live(j)
    ensures p + 1 + AltsLen(more) in f.live(j)
  {
    hide Family.Carries, AltsHold;
    var end := p + 1 + AltsLen(more);
    AltsChain(f.g, p + 1, more);
    Follow(f, p, j, end - 1, j);
    Follow(f, end - 1, j, end, j);
  }

  lemma {:induction false} LastFlow(f: Family, pc: int, re: Re, i: int, j: int)
    requires f.Carries()
    requires AltsHold(f.g.strip, pc, Last(re)) && 1 <= f.lo <= pc && pc + 2 + Len(re) <= f.hi < |f.g.strip|
    requires f.from <= i <= j <= f.upto && pc in f.live(i) && Matches(f.g, f.x, re, i, j)
    ensures pc + 2 + Len(re) in f.live(j)
    decreases re, 2, 0
  {
    hide Family.Carries;
    Follow(f, pc, i, pc + 1, i);
    Flow(f, pc + 1, re, i, j);
    Follow(f, pc + 1 + Len(re), j, pc + 2 + Len(re), j);
  }

  lemma {:induction false} AltsFlow(f: Family, pc: int, a: Alts, i: int, j: int)
    requires f.Carries()
    requires AltsHold(f.g.strip, pc, a) && 1 <= f.lo <= pc && pc + AltsLen(a) <= f.hi < |f.g.strip|
    requires f.from <= i <= j <= f.upto && pc in f.live(i) && AltsMatch(f.g, f.x, a, i, j)
    ensures pc + AltsLen(a) in f.live(j)
    decreases a, 1, 0
  {
    hide Family.Carries, Matches, Holds;
    match a
    case Last(re) => LastFlow(f, pc, re, i, j);
    case Or(re, more) =>
      if Matches(f.g, f.x, re, i, j) {
        BranchFlow(f, pc, OOR2(2 + Len(re)), re, 2 + Len(re), more, i, j);
      } else {
        ToNextBranch(f, pc, re, more, i);
        AltsFlow(f, pc + 2 + Len(re), more, i, j);
      }
  }

  /** From the front of a branch to the front of the next. */
  lemma ToNextBranch(f: Family, pc: int, re: Re, more: Alts, i: int)
    requires f.Carries() && AltsHold(f.g.strip, pc, Or(re, more))
    requires 1 <= f.lo <= pc && pc + AltsLen(Or(re, more)) <= f.hi < |f.g.strip|
    requires f.from <= i <= f.upto && pc in f.live(i)
    ensures pc + 2 + Len(re) in f.live(i)
  {
    hide Family.Carries, Holds;
    AltsHoldBounds(f.g.strip, pc + 2 + Len(re), more);
    AltsChain(f.g, pc + 2 + Len(re), more);
    Follow(f, pc, i, pc + 2 + Len(re), i);
  }
}
