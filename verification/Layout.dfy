/** Where an operator of a tree's code belongs, and how deep the loops are nested there. */
module Layout {
  import opened Strip
  import opened Regex

  /** The piece of the tree that the operator at some place belongs to. */
  datatype Spot = OfNode(q: int, n: Node) | BeforeAlts(alts: Alts) | InAlts(op: Op)

  ghost predicate SpotOk(s: seq<Op>, lo: int, hi: int, p: int, z: Spot) {
    0 <= lo <= p < hi <= |s| &&
    match z
    case OfNode(q, n) => lo <= q && q + NodeLen(n) <= hi && OwnOp(s, q, n, p)
    case BeforeAlts(a) => s[p].OOR1? && AltsHold(s, p + 1, a) && p + 1 + AltsLen(a) <= hi
    case InAlts(op) => s[p] == op && (op.OOR2? || op.O_CH?)
  }

  /** The operator at p is one that the piece `n`, at q, does not share with its parts. */
  ghost predicate OwnOp(s: seq<Op>, q: int, n: Node, p: int) {
    match n
    case One(a) => p == q && 0 <= p < |s| && s[p] == AtomOp(a)
    case Bracket(k, b) =>
      Framed(s, q, Opener(k, Len(b)), b, Closer(k, Len(b))) && (p == q || p == q + 1 + Len(b))
    case Choice(f, r) =>
      p == q && Framed(s, q, OCH_(2 + Len(f)), f, OOR1(1 + Len(f))) && AltsHold(s, q + 2 + Len(f), r)
  }

  lemma {:induction false} Locate(s: seq<Op>, lo: int, re: Re, p: int) returns (z: Spot)
    requires Holds(s, lo, re) && lo <= p < lo + Len(re)
    ensures SpotOk(s, lo, lo + Len(re), p, z)
    decreases re, 0
  {
    HoldsBounds(s, lo, re);
    match re
    case Then(n, t) =>
      if p < lo + NodeLen(n) { z := LocateInNode(s, lo, n, p); } else { z := Locate(s, lo + NodeLen(n), t, p); }
  }

  lemma {:induction false} LocateInNode(s: seq<Op>, lo: int, n: Node, p: int) returns (z: Spot)
    requires NodeHolds(s, lo, n) && lo <= p < lo + NodeLen(n) <= |s|
    ensures SpotOk(s, lo, lo + NodeLen(n), p, z)
    decreases n, 0
  {
    NodeHoldsBounds(s, lo, n);
    z := OfNode(lo, n);
    match n
    case One(_) =>
    case Bracket(_, b) => if lo < p < lo + 1 + Len(b) { z := Locate(s, lo + 1, b, p); }
    case Choice(f, r) =>
      if p >= lo + 2 + Len(f) { z := LocateInAlts(s, lo + 2 + Len(f), r, p); }
      else if p == lo + 1 + Len(f) { z := BeforeAlts(r); }
      else if p > lo { z := Locate(s, lo + 1, f, p); }
  }

  lemma {:induction false} LocateInAlts(s: seq<Op>, lo: int, a: Alts, p: int) returns (z: Spot)
    requires AltsHold(s, lo, a) && lo <= p < lo + AltsLen(a) <= |s|
    ensures SpotOk(s, lo, lo + AltsLen(a), p, z)
    decreases a, 0
  {
    AltsHoldBounds(s, lo, a);
    z := InAlts(s[p]);
    if lo < p < lo + 1 + Len(a.re) { z := Locate(s, lo + 1, a.re, p); }
    else if a.Or? {
      if p == lo + 1 + Len(a.re) { z := BeforeAlts(a.more); }
      else if p > lo { z := LocateInAlts(s, lo + 2 + Len(a.re), a.more, p); }
    }
  }

  // ----- nesting of loops -----

  function Weight(op: Op): int {
    if op.OPLUS_? then 1 else if op.O_PLUS? then -1 else 0
  }

  /** How many loops are open in front of the operator at k; pluscount() keeps this count. */
  ghost function Depth(s: seq<Op>, k: int): int
    requires k <= |s|
    decreases k
  {
    if k <= 0 then 0 else Depth(s, k - 1) + Weight(s[k - 1])
  }

  lemma {:induction false} Balanced(s: seq<Op>, pc: int, re: Re)
    requires Holds(s, pc, re)
    ensures 0 <= pc && pc + Len(re) <= |s| && Depth(s, pc + Len(re)) == Depth(s, pc)
    decreases re, 0
  {
    HoldsBounds(s, pc, re);
    if re.Then? {
      NodeBalanced(s, pc, re.head);
      Balanced(s, pc + NodeLen(re.head), re.tail);
    }
  }

  lemma {:induction false} NodeBalanced(s: seq<Op>, pc: int, n: Node)
    requires NodeHolds(s, pc, n)
    ensures 0 <= pc && pc + NodeLen(n) <= |s| && Depth(s, pc + NodeLen(n)) == Depth(s, pc)
    decreases n, 0
  {
    NodeHoldsBounds(s, pc, n);
    match n
    case One(_) =>
    case Bracket(k, b) => FramedBalanced(s, pc, Opener(k, Len(b)), b, Closer(k, Len(b)));
    case Choice(f, r) =>
      FramedBalanced(s, pc, OCH_(2 + Len(f)), f, OOR1(1 + Len(f)));
      AltsBalanced(s, pc + 2 + Len(f), r);
  }

  lemma {:induction false} AltsBalanced(s: seq<Op>, pc: int, a: Alts)
    requires AltsHold(s, pc, a)
    ensures 0 <= pc && pc + AltsLen(a) <= |s| && Depth(s, pc + AltsLen(a)) == Depth(s, pc)
    decreases a, 0
  {
    AltsHoldBounds(s, pc, a);
    match a
    case Last(re) => FramedBalanced(s, pc, OOR2(1 + Len(re)), re, O_CH(2 + Len(re)));
    case Or(re, more) =>
      FramedBalanced(s, pc, OOR2(2 + Len(re)), re, OOR1(2 + Len(re)));
      AltsBalanced(s, pc + 2 + Len(re), more);
  }

  lemma {:induction false} FramedBalanced(s: seq<Op>, pc: int, before: Op, b: Re, behind: Op)
    requires Framed(s, pc, before, b, behind)
    ensures Depth(s, pc + 1) == Depth(s, pc) + Weight(before)
    ensures Depth(s, pc + 1 + Len(b)) == Depth(s, pc + 1)
    ensures Depth(s, pc + 2 + Len(b)) == Depth(s, pc) + Weight(before) + Weight(behind)
    decreases b, 1
  {
    Balanced(s, pc + 1, b);
  }

  /** Word anchors are no part of any tree. */
  lemma NoWordOps(s: seq<Op>, lo: int, re: Re, p: int)
    requires Holds(s, lo, re) && 0 <= lo <= p < lo + Len(re) <= |s|
    ensures !s[p].OBOW? && !s[p].OEOW?
  {
    var z := Locate(s, lo, re, p);
  }

  function Max(a: nat, b: nat): nat {
    if a < b then b else a
  }
}
