/** The numbers of groups and back references in a tree, and where the code of a back reference ends. */
module BackNumbers {
  import opened Strip
  import opened Regex
  import opened Layout
  import opened Backtracking

  /** Groups and back references have numbers that the table has room for, and no back reference is
      part of the copy that another one to the same group carries. */
  predicate Numbered(re: Re, size: nat)
    decreases re
  {
    match re
    case End(_) => true
    case Then(n, t) => NodeNumbered(n, size) && Numbered(t, size)
  }

  predicate NodeNumbered(n: Node, size: nat)
    decreases n
  {
    match n
    case One(a) => a.Rparen? ==> 0 < a.i < size
    case Bracket(k, b) =>
      && (k.Group? || k.Back? ==> 0 < k.i < size) && (k.Back? ==> !HasBack(b, k.i))
      && Numbered(b, size)
    case Choice(f, r) => Numbered(f, size) && AltsNumbered(r, size)
  }

  predicate AltsNumbered(a: Alts, size: nat)
    decreases a
  {
    match a
    case Last(re) => Numbered(re, size)
    case Or(re, more) => Numbered(re, size) && AltsNumbered(more, size)
  }

  /** A back reference to group i is somewhere in `re`. */
  predicate HasBack(re: Re, i: nat)
    decreases re
  {
    match re
    case End(_) => false
    case Then(n, t) => NodeHasBack(n, i) || HasBack(t, i)
  }

  predicate NodeHasBack(n: Node, i: nat)
    decreases n
  {
    match n
    case One(_) => false
    case Bracket(k, b) => k == Kind.Back(i) || HasBack(b, i)
    case Choice(f, r) => HasBack(f, i) || AltsHaveBack(r, i)
  }

  predicate AltsHaveBack(a: Alts, i: nat)
    decreases a
  {
    match a
    case Last(re) => HasBack(re, i)
    case Or(re, more) => HasBack(re, i) || AltsHaveBack(more, i)
  }

  lemma {:induction false} NoBackInside(s: seq<Op>, pc: int, re: Re, i: nat, p: int)
    requires Holds(s, pc, re) && !HasBack(re, i) && pc <= p < pc + Len(re)
    ensures 0 <= p < |s| && s[p] != O_BACK(i)
    decreases re, 0
  {
    HoldsBounds(s, pc, re);
    var n := re.head;
    if p < pc + NodeLen(n) { NoBackInNode(s, pc, n, i, p); } else { NoBackInside(s, pc + NodeLen(n), re.tail, i, p); }
  }

  lemma {:induction false} NoBackInNode(s: seq<Op>, pc: int, n: Node, i: nat, p: int)
    requires NodeHolds(s, pc, n) && !NodeHasBack(n, i) && pc <= p < pc + NodeLen(n)
    ensures 0 <= p < |s| && s[p] != O_BACK(i)
    decreases n, 0
  {
    NodeHoldsBounds(s, pc, n);
    match n
    case One(_) =>
    case Bracket(_, b) => if pc < p < pc + 1 + Len(b) { NoBackInside(s, pc + 1, b, i, p); }
    case Choice(f, r) =>
      if p >= pc + 2 + Len(f) { NoBackInAlts(s, pc + 2 + Len(f), r, i, p); }
      else if pc < p < pc + 1 + Len(f) { NoBackInside(s, pc + 1, f, i, p); }
  }

  lemma {:induction false} NoBackInAlts(s: seq<Op>, pc: int, a: Alts, i: nat, p: int)
    requires AltsHold(s, pc, a) && !AltsHaveBack(a, i) && pc <= p < pc + AltsLen(a)
    ensures 0 <= p < |s| && s[p] != O_BACK(i)
    decreases a, 0
  {
    AltsHoldBounds(s, pc, a);
    if pc < p < pc + 1 + Len(a.re) { NoBackInside(s, pc + 1, a.re, i, p); }
    else if a.Or? && p >= pc + 2 + Len(a.re) { NoBackInAlts(s, pc + 2 + Len(a.re), a.more, i, p); }
  }

  lemma {:induction false} NextBackAt(g: Guts, ss: int, i: nat, c: int)
    requires 0 <= ss <= c < |g.strip| && g.strip[c] == O_BACK(i)
    requires forall p | ss <= p < c :: g.strip[p] != O_BACK(i)
    ensures NextBack(g, ss, i) == c
    decreases c - ss
  {
    if ss < c { NextBackAt(g, ss + 1, i, c); }
  }

  lemma BackParen(g: Guts, pc: int, i: nat, b: Re)
    requires Framed(g.strip, pc, OBACK_(i), b, O_BACK(i)) && !HasBack(b, i)
    ensures NextBack(g, pc, i) == pc + 1 + Len(b) && Depth(g.strip, pc + 2 + Len(b)) == Depth(g.strip, pc)
  {
    FramedBalanced(g.strip, pc, OBACK_(i), b, O_BACK(i));
    forall p | pc <= p < pc + 1 + Len(b) ensures g.strip[p] != O_BACK(i) {
      if p > pc { NoBackInside(g.strip, pc + 1, b, i, p); }
    }
    NextBackAt(g, pc, i, pc + 1 + Len(b));
  }
}
