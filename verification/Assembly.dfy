/** What the engine asks of its callers is met by the strip of every expression, with or without back
    references: emit the tree between two endmarkers and count. */
module Assembly {
  import opened Strip
  import opened Regex
  import opened Automaton
  import opened Layout
  import opened Boundary
  import opened AnchorCounts
  import opened Backtracking
  import opened BackNumbers
  import opened Dissection
  import opened BackrefInPlace
  import opened Matching

  function StripOf(re: Re): seq<Op> {
    Emit([OEND], re) + [OEND]
  }

  lemma StripHolds(re: Re)
    ensures var s := StripOf(re); |s| == 2 + Len(re) && s[0] == OEND && s[1 + Len(re)] == OEND && Holds(s, 1, re)
  {
    var e := Emit([OEND], re);
    EmitHolds([OEND], re);
    assert Extends(e, e + [OEND], 1);
    HoldsExtends(e, e + [OEND], 1, 1, re);
    assert e[..1][0] == OEND;
  }

  // ----- nesting -----

  /** How deep loops are nested in `re`. */
  function Nesting(re: Re): nat
    decreases re
  {
    match re
    case End(_) => 0
    case Then(n, t) => Max(NodeNesting(n), Nesting(t))
  }

  function NodeNesting(n: Node): nat
    decreases n
  {
    match n
    case One(_) => 0
    case Bracket(k, b) => (if k.Plus? then 1 else 0) + Nesting(b)
    case Choice(f, r) => Max(Nesting(f), AltsNesting(r))
  }

  function AltsNesting(a: Alts): nat
    decreases a
  {
    match a
    case Last(re) => Nesting(re)
    case Or(re, more) => Max(Nesting(re), AltsNesting(more))
  }

  /** The depth at p is one for which a table of n levels above `base` has room. */
  ghost predicate Room(s: seq<Op>, p: int, base: int, n: nat) {
    && 0 <= p <= |s| && base <= Depth(s, p) <= base + n
    && (p < |s| && s[p].OPLUS_? ==> Depth(s, p) < base + n)
    && (p < |s| && s[p].O_PLUS? ==> Depth(s, p) > base)
  }

  /** Within the code of a tree loops are nested no less deep than at its beginning, and no deeper
      than the tree says. */
  lemma {:induction false} DepthInside(s: seq<Op>, pc: int, re: Re, p: int)
    requires Holds(s, pc, re) && pc <= p < pc + Len(re)
    ensures 0 <= pc <= |s| && Room(s, p, Depth(s, pc), Nesting(re))
    decreases re, 0
  {
    HoldsBounds(s, pc, re);
    NodeHoldsBounds(s, pc, re.head);
    NodeBalanced(s, pc, re.head);
    if p < pc + NodeLen(re.head) { NodeDepth(s, pc, re.head, p); }
    else { DepthInside(s, pc + NodeLen(re.head), re.tail, p); }
  }

  lemma {:induction false} NodeDepth(s: seq<Op>, pc: int, n: Node, p: int)
    requires NodeHolds(s, pc, n) && pc <= p < pc + NodeLen(n)
    ensures 0 <= pc && pc + NodeLen(n) <= |s| && Room(s, p, Depth(s, pc), NodeNesting(n))
    decreases n, 1
  {
    NodeHoldsBounds(s, pc, n);
    match n
    case One(_) =>
    case Bracket(_, _) => BracketDepth(s, pc, n, p);
    case Choice(_, _) => ChoiceDepth(s, pc, n, p);
  }

  lemma {:induction false} BracketDepth(s: seq<Op>, pc: int, n: Node, p: int)
    requires n.Bracket? && NodeHolds(s, pc, n) && pc <= p < pc + NodeLen(n)
    ensures 0 <= pc < |s| && Room(s, p, Depth(s, pc), NodeNesting(n))
    decreases n, 0
  {
    var k, b := n.kind, n.body;
    FramedBalanced(s, pc, Opener(k, Len(b)), b, Closer(k, Len(b)));
    if pc < p < pc + 1 + Len(b) { DepthInside(s, pc + 1, b, p); }
  }

  lemma {:induction false} ChoiceDepth(s: seq<Op>, pc: int, n: Node, p: int)
    requires n.Choice? && NodeHolds(s, pc, n) && pc <= p < pc + NodeLen(n)
    ensures 0 <= pc < |s| && Room(s, p, Depth(s, pc), NodeNesting(n))
    decreases n, 0
  {
    hide Depth, Holds, NodeHolds, AltsHold, Len, AltsLen, NodeLen;
    ChoiceIs(s, pc, n);
    var f, r := n.first, n.rest;
    var m := pc + 2 + Len(f);
    OneDeeper(s, pc);
    Balanced(s, pc + 1, f);
    OneDeeper(s, m - 1);
    if p >= m { AltsDepth(s, m, r, p); } else if pc < p < m - 1 { DepthInside(s, pc + 1, f, p); }
  }

  lemma {:induction false} AltsDepth(s: seq<Op>, pc: int, a: Alts, p: int)
    requires AltsHold(s, pc, a) && pc <= p < pc + AltsLen(a)
    ensures 0 <= pc && pc + AltsLen(a) <= |s| && Room(s, p, Depth(s, pc), AltsNesting(a))
    decreases a, 0
  {
    AltsHoldBounds(s, pc, a);
    match a {
      case Last(re) => FramedBalanced(s, pc, OOR2(1 + Len(re)), re, O_CH(2 + Len(re)));
      case Or(re, _) => FramedBalanced(s, pc, OOR2(2 + Len(re)), re, OOR1(2 + Len(re)));
    }
    if pc < p < pc + 1 + Len(a.re) { DepthInside(s, pc + 1, a.re, p); }
    else if a.Or? && p >= pc + 2 + Len(a.re) { AltsDepth(s, pc + 2 + Len(a.re), a.more, p); }
  }

  // ----- parentheses and back references -----

  /** Numbers in range, and a back reference whose end is the first of its number. */
  ghost predicate WellParen(g: Guts, size: nat, p: int) {
    0 <= p < |g.strip| &&
    var op := g.strip[p];
    && (op.OLPAREN? || op.ORPAREN? || op.OBACK_? ==> 0 < op.paren < size)
    && (op.OBACK_? ==> var q := NextBack(g, p, op.paren);
                       q < |g.strip| && Depth(g.strip, q + 1) == Depth(g.strip, p))
  }

  lemma {:induction false} ParenInside(g: Guts, pc: int, re: Re, size: nat, p: int)
    requires Holds(g.strip, pc, re) && Numbered(re, size) && pc <= p < pc + Len(re)
    ensures WellParen(g, size, p)
    decreases re, 0
  {
    HoldsBounds(g.strip, pc, re);
    var n := re.head;
    if p < pc + NodeLen(n) { NodeParen(g, pc, n, size, p); } else { ParenInside(g, pc + NodeLen(n), re.tail, size, p); }
  }

  lemma {:induction false} NodeParen(g: Guts, pc: int, n: Node, size: nat, p: int)
    requires NodeHolds(g.strip, pc, n) && NodeNumbered(n, size) && pc <= p < pc + NodeLen(n)
    ensures WellParen(g, size, p)
    decreases n, 0
  {
    NodeHoldsBounds(g.strip, pc, n);
    match n
    case One(_) =>
    case Bracket(k, b) =>
      if pc < p < pc + 1 + Len(b) { ParenInside(g, pc + 1, b, size, p); }
      else if p == pc && k.Back? { BackParen(g, pc, k.i, b); }
    case Choice(f, r) =>
      if p >= pc + 2 + Len(f) { AltsParen(g, pc + 2 + Len(f), r, size, p); }
      else if pc < p < pc + 1 + Len(f) { ParenInside(g, pc + 1, f, size, p); }
  }

  lemma {:induction false} AltsParen(g: Guts, pc: int, a: Alts, size: nat, p: int)
    requires AltsHold(g.strip, pc, a) && AltsNumbered(a, size) && pc <= p < pc + AltsLen(a)
    ensures WellParen(g, size, p)
    decreases a, 0
  {
    AltsHoldBounds(g.strip, pc, a);
    if pc < p < pc + 1 + Len(a.re) { ParenInside(g, pc + 1, a.re, size, p); }
    else if a.Or? && p >= pc + 2 + Len(a.re) { AltsParen(g, pc + 2 + Len(a.re), a.more, size, p); }
  }

  // ----- all of it -----

  /** The strip of `re` between endmarkers, and numbers that are large enough. */
  ghost predicate Laid(g: Guts, re: Re) {
    && g.laststate == g.firststate + 1 + Len(re) < |g.strip| && Holds(g.strip, g.firststate + 1, re)
    && (forall p | 0 <= p < |g.strip| && !(g.firststate < p < g.laststate) :: g.strip[p].OEND?)
    && Numbered(re, g.nsub + 1) && Nesting(re) <= g.nplus && (!g.backrefs ==> Fits(re, g.nsub + 1))
  }

  lemma {:induction false} FlatDepth(s: seq<Op>, k: nat)
    requires k <= |s| && forall p | 0 <= p < k :: s[p].OEND?
    ensures Depth(s, k) == 0
    decreases k
  {
    if k > 0 { FlatDepth(s, k - 1); }
  }

  /** Every such expression can be searched for. */
  lemma LaidIsCompiled(g: Guts, re: Re)
    requires Laid(g, re)
    ensures Compiled(g, re)
  {
    var lo := g.firststate + 1;
    FlatDepth(g.strip, lo);
    var size: nat, nplus := g.nsub + 1, g.nplus;
    forall p | 0 <= p < |g.strip| ensures WellCompiledAt(g, size, nplus, p) {
      if lo <= p < g.laststate {
        ParenInside(g, lo, re, size, p);
        DepthInside(g.strip, lo, re, p);
      }
    }
  }

  /** What regcomp() makes of the tree `re`. */
  ghost function Assembled(re: Re, nsub: nat, backrefs: bool, sets: seq<set<char>>, newline: bool, must: string): Guts {
    var g := Guts(StripOf(re), sets, false, newline, 0, 1 + Len(re), 0, 0, must, nsub, backrefs, Nesting(re));
    g.(nbol := |BolOps(g)|, neol := |EolOps(g)|)
  }

  /** Every expression whose groups and back references are numbered from 1 to nsub has a compiled
      form, and the rounds at line boundaries suffice for it in both builds. */
  lemma AssembledIsCompiled(re: Re, nsub: nat, backrefs: bool, sets: seq<set<char>>, newline: bool, must: string)
    requires Numbered(re, nsub + 1) && (!backrefs ==> Fits(re, nsub + 1))
    ensures var g := Assembled(re, nsub, backrefs, sets, newline, must);
            Compiled(g, re) && EnoughRounds(false, g) && EnoughRounds(true, g)
  {
    hide EnoughRounds, Compiled;
    var g := Assembled(re, nsub, backrefs, sets, newline, must);
    StripHolds(re);
    LaidIsCompiled(g, re);
    var g0 := Guts(StripOf(re), sets, false, newline, 0, 1 + Len(re), 0, 0, must, nsub, backrefs, Nesting(re));
    assert BolOps(g) == BolOps(g0) && EolOps(g) == EolOps(g0);
    CountedIsEnough(false, g);
    SmallThenLarge(g);
  }
}
