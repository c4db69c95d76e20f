/** When backref() ends.  Each call that it makes on itself either takes text or goes down in a rank of
    the places in the strip; such a rank exists when no loop can be passed through without text. */
module Ranks {
  import opened Strip
  import opened Regex
  import opened Captures
  import opened Backtracking

  /** The rank of a place in the strip, with the search at a place in the text. */
  type Rank = (int, int) -> nat

  /** The place in the strip at which the search that comes by ends. */
  type Goal = int -> int

  /** A move that may take no text: the goal stays, and the rank goes down. */
  ghost predicate Down(h: Rank, e: Goal, i: int, p: int, q: int) {
    e(q) == e(p) && h(i, q) < h(i, p)
  }

  /** The branches of a choice at p are below it, and each is a goal of its own. */
  ghost predicate BranchesDown(g: Guts, h: Rank, e: Goal, i: int, p: int, ssub: int, esub: int)
    decreases |g.strip| - esub
  {
    && e(ssub) == esub && h(i, ssub) < h(i, p)
    && (0 <= esub && esub + 1 < |g.strip| && !g.strip[esub].O_CH? && g.strip[esub + 1].OOR2? ==>
          var n := esub + 1 + g.strip[esub + 1].fwd;
          var n' := if 0 <= n < |g.strip| && g.strip[n].OOR2? then n - 1 else n;
          n' > esub ==> BranchesDown(g, h, e, i, p, esub + 2, n'))
  }

  /** Every move of backref() from p, at place i of the text, that takes no text goes down. */
  ghost predicate DownAt(g: Guts, x: Subject, h: Rank, e: Goal, i: int, p: int)
    requires 0 <= p < |g.strip|
  {
    var op := g.strip[p];
    if IsEasy(op) then !op.OOR1? && e(p + 1) == e(p) && (EasyMove(g, x, op, i, i).Some? ==> h(i, p + 1) < h(i, p))
    else match op
      case OBACK_(k) => Down(h, e, i, p, NextBack(g, p, k) + 1)
      case OQUEST_(n) => Down(h, e, i, p, p + 1) && Down(h, e, i, p, p + n + 1)
      case OPLUS_(_) => Down(h, e, i, p, p + 1)
      case O_PLUS(n) => Down(h, e, i, p, p + 1) && Down(h, e, i, p, p - n + 1)
      case OLPAREN(_) => Down(h, e, i, p, p + 1)
      case ORPAREN(_) => Down(h, e, i, p, p + 1)
      case OCH_(n) => BranchesDown(g, h, e, i, p, p + 1, p + n - 1)
      case _ => true
  }

  ghost predicate Ranked(g: Guts, x: Subject, h: Rank, e: Goal, top: nat) {
    && (forall i, p :: h(i, p) <= top)
    && (forall i, p | x.begin <= i <= x.end && 0 <= p < |g.strip| && p < e(p) :: DownAt(g, x, h, e, i, p))
  }

  // ----- the fuel that is enough -----

  /** What goes down with every call. */
  function Measure(h: Rank, top: nat, left: int, i: int, p: int): int {
    left * (top + 1) + h(i, p)
  }

  lemma TextCounts(h: Rank, top: nat, left: int, len: nat, i: int, p: int, i': int, q: int)
    requires 0 < len <= left && h(i', q) <= top
    ensures Measure(h, top, left - len, i', q) < Measure(h, top, left, i, p)
  {
    var t: nat := top + 1;
    assert (left - len) * t <= (left - 1) * t by {
      assert (left - 1) * t - (left - len) * t == (len - 1) * t;
    }
    assert (left - 1) * t == left * t - t;
  }

  lemma {:induction false} WayDown(g: Guts, x: Subject, h: Rank, e: Goal, top: nat, sp: int, stop: int, ss: int)
    requires Ranked(g, x, h, e, top) && x.begin <= sp <= stop <= x.end
    ensures var w := EasyWay(g, x, sp, stop, ss, e(ss));
            w.Choose? ==>
              && e(w.ss) == e(ss) && 0 <= w.ss < e(ss) && w.ss < |g.strip| && !IsEasy(g.strip[w.ss]) && sp <= w.sp <= stop
              && Measure(h, top, stop - w.sp, w.sp, w.ss) <= Measure(h, top, stop - sp, sp, ss)
    decreases e(ss) - ss
  {
    if 0 <= ss < e(ss) && ss < |g.strip| && IsEasy(g.strip[ss]) {
      assert DownAt(g, x, h, e, sp, ss);
      var q := EasyMove(g, x, g.strip[ss], sp, stop);
      if q.Some? {
        WayDown(g, x, h, e, top, q.value, stop, ss + 1);
        if q.value != sp { TextCounts(h, top, stop - sp, 1, sp, ss, sp + 1, ss + 1); }
      }
    }
  }

  /** More fuel than the measure is enough. */
  lemma {:induction false} Ends(g: Guts, x: Subject, h: Rank, e: Goal, top: nat, fuel: nat, sp: int, stop: int, ss: int, lev: int, s: Store)
    requires Ranked(g, x, h, e, top) && x.begin <= sp <= stop <= x.end
    requires fuel > Measure(h, top, stop - sp, sp, ss)
    ensures Backtrack(g, x, fuel, sp, stop, ss, e(ss), lev, s).0 != OutOfFuel
    decreases fuel, 1, 0
  {
    hide Ranked, Measure, DownAt;
    WayDown(g, x, h, e, top, sp, stop, ss);
    MeasureIsNat(h, top, stop - sp, sp, ss);
    var w := EasyWay(g, x, sp, stop, ss, e(ss));
    if w.Choose? { ChosenEnds(g, x, h, e, top, fuel, w.sp, stop, w.ss, lev, s); }
  }

  lemma MeasureIsNat(h: Rank, top: nat, left: int, i: int, p: int)
    requires left >= 0
    ensures Measure(h, top, left, i, p) >= 0
  {
    assert left * (top + 1) >= 0;
  }

  /** A call behind a move that takes no text. */
  lemma {:induction false} CallEnds(g: Guts, x: Subject, h: Rank, e: Goal, top: nat, f: nat, sp: int, stop: int, ss: int, q: int, lev: int, s: Store)
    requires Ranked(g, x, h, e, top) && x.begin <= sp <= stop <= x.end && Down(h, e, sp, ss, q)
    requires f + 1 > Measure(h, top, stop - sp, sp, ss)
    ensures Backtrack(g, x, f, sp, stop, q, e(ss), lev, s).0 != OutOfFuel
    decreases f, 2, 0
  {
    hide Ranked;
    Ends(g, x, h, e, top, f, sp, stop, q, lev, s);
  }

  lemma {:induction false} ChosenEnds(g: Guts, x: Subject, h: Rank, e: Goal, top: nat, fuel: nat, sp: int, stop: int, ss: int, lev: int, s: Store)
    requires Ranked(g, x, h, e, top) && x.begin <= sp <= stop <= x.end
    requires 0 <= ss < |g.strip| && ss < e(ss) && !IsEasy(g.strip[ss]) && fuel > 0 && fuel > Measure(h, top, stop - sp, sp, ss)
    ensures Chosen(g, x, fuel, sp, stop, ss, e(ss), lev, s).0 != OutOfFuel
    decreases fuel, 0, 0
  {
    var f := fuel - 1;
    assert DownAt(g, x, h, e, sp, ss);
    hide Ranked, Measure;
    match g.strip[ss]
    case OBACK_(i) =>
      var q := BackMove(x, s.pm, i, sp, stop);
      if q.Some? { BackEnds(g, x, h, e, top, f, sp, stop, ss, q.value, lev, s); }
    case OQUEST_(n) =>
      CallEnds(g, x, h, e, top, f, sp, stop, ss, ss + 1, lev, s);
      CallEnds(g, x, h, e, top, f, sp, stop, ss, ss + n + 1, lev, Backtrack(g, x, f, sp, stop, ss + 1, e(ss), lev, s).1);
    case OPLUS_(_) =>
      CallEnds(g, x, h, e, top, f, sp, stop, ss, ss + 1, lev + 1, s.(lastpos := SetLast(s.lastpos, lev + 1, sp)));
    case O_PLUS(n) =>
      var s' := s.(lastpos := SetLast(s.lastpos, lev, sp));
      CallEnds(g, x, h, e, top, f, sp, stop, ss, ss + 1, lev - 1, s);
      CallEnds(g, x, h, e, top, f, sp, stop, ss, ss - n + 1, lev, s');
      CallEnds(g, x, h, e, top, f, sp, stop, ss, ss + 1, lev - 1, Backtrack(g, x, f, sp, stop, ss - n + 1, e(ss), lev, s').1);
    case OCH_(n) => BranchesEnd(g, x, h, e, top, f, sp, stop, ss, ss + 1, ss + n - 1, lev, s);
    case OLPAREN(i) =>
      CallEnds(g, x, h, e, top, f, sp, stop, ss, ss + 1, lev, s.(pm := SetStart(s.pm, i, sp)));
    case ORPAREN(i) =>
      CallEnds(g, x, h, e, top, f, sp, stop, ss, ss + 1, lev, s.(pm := SetEnd(s.pm, i, sp)));
    case _ =>
  }

  /** Behind a back reference, which takes text or none. */
  lemma {:induction false} BackEnds(g: Guts, x: Subject, h: Rank, e: Goal, top: nat, f: nat, sp: int, stop: int, ss: int, sp': int, lev: int, s: Store)
    requires Ranked(g, x, h, e, top) && x.begin <= sp <= sp' <= stop <= x.end
    requires 0 <= ss < |g.strip| && ss < e(ss) && g.strip[ss].OBACK_? && f + 1 > Measure(h, top, stop - sp, sp, ss)
    ensures Backtrack(g, x, f, sp', stop, NextBack(g, ss, g.strip[ss].paren) + 1, e(ss), lev, s).0 != OutOfFuel
    decreases f, 3, 0
  {
    var q := NextBack(g, ss, g.strip[ss].paren) + 1;
    assert DownAt(g, x, h, e, sp, ss);
    if sp' == sp {
      CallEnds(g, x, h, e, top, f, sp, stop, ss, q, lev, s);
    } else {
      TextCounts(h, top, stop - sp, sp' - sp, sp, ss, sp', q);
      Ends(g, x, h, e, top, f, sp', stop, q, lev, s);
    }
  }

  lemma {:induction false} BranchesEnd(g: Guts, x: Subject, h: Rank, e: Goal, top: nat, f: nat, sp: int, stop: int, ss: int, ssub: int, esub: int, lev: int, s: Store)
    requires Ranked(g, x, h, e, top) && x.begin <= sp <= stop <= x.end
    requires BranchesDown(g, h, e, sp, ss, ssub, esub) && f + 1 > Measure(h, top, stop - sp, sp, ss)
    ensures Branches(g, x, f, sp, stop, ssub, esub, lev, s).0 != OutOfFuel
    decreases f, 2, |g.strip| - esub
  {
    hide Ranked;
    Ends(g, x, h, e, top, f, sp, stop, ssub, lev, s);
    var r := Backtrack(g, x, f, sp, stop, ssub, esub, lev, s);
    if r.0.NoMatch? && 0 <= esub && esub + 1 < |g.strip| && !g.strip[esub].O_CH? && g.strip[esub + 1].OOR2? {
      var n := esub + 1 + g.strip[esub + 1].fwd;
      var n' := if 0 <= n < |g.strip| && g.strip[n].OOR2? then n - 1 else n;
      if n' > esub { BranchesEnd(g, x, h, e, top, f, sp, stop, ss, esub + 2, n', lev, r.1); }
    }
  }
}
