/** backref() as it works in place on the sub-matches and on `lastpos`. */
module BackrefInPlace {
  import opened Strip
  import opened Regex
  import opened Automaton
  import opened Scanning
  import opened Captures
  import opened Backtracking
  import opened Layout

  /** What regcomp() guarantees: parenthesis numbers that the table has room for, loops nested no
      deeper than `nplus`, and a back reference whose end is the first of its number. */
  ghost predicate WellCompiled(g: Guts, size: nat, nplus: int) {
    forall p | 0 <= p < |g.strip| :: WellCompiledAt(g, size, nplus, p)
  }

  ghost predicate WellCompiledAt(g: Guts, size: nat, nplus: int, p: int)
    requires 0 <= p < |g.strip|
  {
    var op := g.strip[p];
    && (op.OLPAREN? || op.ORPAREN? || op.OBACK_? ==> 0 < op.paren < size)
    && (op.OPLUS_? ==> 0 <= Depth(g.strip, p) < nplus)
    && (op.O_PLUS? ==> 1 <= Depth(g.strip, p) <= nplus)
    && (op.OBACK_? ==> var q := NextBack(g, p, op.paren);
                       q < |g.strip| ==> Depth(g.strip, q + 1) == Depth(g.strip, p))
  }

  /** startst is a place in the code of `re`, which ends at stopst, under `lev` loops. */
  ghost predicate PlacedIn(g: Guts, lo: int, re: Re, stopst: int, ss: int, lev: int) {
    && 1 <= lo && Holds(g.strip, lo, re) && stopst == lo + Len(re) < |g.strip|
    && lo <= ss <= stopst && lev == Depth(g.strip, ss)
  }

  // ----- the places that backref() goes on at -----

  lemma EasyNextInside(g: Guts, lo: int, re: Re, stopst: int, ss: int, lev: int)
    requires PlacedIn(g, lo, re, stopst, ss, lev) && ss < stopst && IsEasy(g.strip[ss])
    ensures PlacedIn(g, lo, re, stopst, EasyNext(g, ss), lev)
  {
    if g.strip[ss].OOR1? {
      var z := Locate(g.strip, lo, re, ss);
      AltsChain(g, ss + 1, z.alts);
      AltsBalanced(g.strip, ss + 1, z.alts);
    }
  }

  lemma NextBackBefore(g: Guts, ss: int, i: nat, c: int)
    requires 0 <= ss <= c < |g.strip| && g.strip[c] == O_BACK(i)
    ensures NextBack(g, ss, i) <= c
    decreases c - ss
  {
    if ss < c && g.strip[ss] != O_BACK(i) { NextBackBefore(g, ss + 1, i, c); }
  }

  lemma BackInside(g: Guts, size: nat, nplus: int, lo: int, re: Re, stopst: int, ss: int, lev: int)
    requires PlacedIn(g, lo, re, stopst, ss, lev) && ss < stopst && WellCompiled(g, size, nplus) && g.strip[ss].OBACK_?
    ensures PlacedIn(g, lo, re, stopst, NextBack(g, ss, g.strip[ss].paren) + 1, lev)
    ensures NextBack(g, ss, g.strip[ss].paren) < stopst
  {
    var z := Locate(g.strip, lo, re, ss);
    NextBackBefore(g, ss, g.strip[ss].paren, ss + 1 + Len(z.n.body));
    assert WellCompiledAt(g, size, nplus, ss);
  }

  lemma QuestInside(g: Guts, lo: int, re: Re, stopst: int, ss: int, lev: int)
    requires PlacedIn(g, lo, re, stopst, ss, lev) && ss < stopst && g.strip[ss].OQUEST_?
    ensures PlacedIn(g, lo, re, stopst, ss + 1, lev) && PlacedIn(g, lo, re, stopst, ss + g.strip[ss].fwd + 1, lev)
  {
    var z := Locate(g.strip, lo, re, ss);
    FramedBalanced(g.strip, ss, OQUEST_(1 + Len(z.n.body)), z.n.body, O_QUEST(1 + Len(z.n.body)));
  }

  lemma LoopInside(g: Guts, lo: int, re: Re, stopst: int, ss: int, lev: int)
    requires PlacedIn(g, lo, re, stopst, ss, lev) && ss < stopst && g.strip[ss].O_PLUS?
    ensures PlacedIn(g, lo, re, stopst, ss + 1, lev - 1) && PlacedIn(g, lo, re, stopst, ss - g.strip[ss].back + 1, lev)
  {
    var z := Locate(g.strip, lo, re, ss);
    var b := z.n.body;
    FramedBalanced(g.strip, z.q, OPLUS_(1 + Len(b)), b, O_PLUS(1 + Len(b)));
  }

  lemma NextInside(g: Guts, lo: int, re: Re, stopst: int, ss: int, lev: int)
    requires PlacedIn(g, lo, re, stopst, ss, lev) && ss < stopst
    ensures PlacedIn(g, lo, re, stopst, ss + 1, lev + Weight(g.strip[ss]))
  {
  }

  // ----- branches -----

  /** A branch that is being tried, and what is left of its choice: `more`, unless it is the last. */
  ghost predicate Trying(g: Guts, ssub: int, esub: int, f: Re, more: Alts, last: bool, lev: int) {
    && PlacedIn(g, ssub, f, esub, ssub, lev)
    && (if last then g.strip[esub].O_CH?
        else g.strip[esub].OOR1? && AltsHold(g.strip, esub + 1, more) && esub + 1 + AltsLen(more) < |g.strip|)
  }

  lemma FirstBranchInside(g: Guts, lo: int, re: Re, stopst: int, ss: int, lev: int) returns (f: Re, more: Alts)
    requires PlacedIn(g, lo, re, stopst, ss, lev) && ss < stopst && g.strip[ss].OCH_?
    ensures 2 <= g.strip[ss].fwd && Trying(g, ss + 1, ss + g.strip[ss].fwd - 1, f, more, false, lev)
    ensures ss + g.strip[ss].fwd - 1 + AltsLen(more) < stopst
  {
    var z := Locate(g.strip, lo, re, ss);
    f, more := z.n.first, z.n.rest;
    assert Framed(g.strip, ss, OCH_(2 + Len(f)), f, OOR1(1 + Len(f)));
  }

  lemma NextBranchInside(g: Guts, ssub: int, esub: int, f: Re, more: Alts, lev: int)
    requires Trying(g, ssub, esub, f, more, false, lev)
    ensures g.strip[esub + 1].OOR2? && 1 <= g.strip[esub + 1].fwd && esub + 1 + g.strip[esub + 1].fwd < |g.strip|
    ensures var e := esub + 1 + g.strip[esub + 1].fwd;
            && (g.strip[e].OOR2? <==> more.Or?)
            && (if more.Or? then Trying(g, esub + 2, e - 1, more.re, more.more, false, lev)
                else Trying(g, esub + 2, e, more.re, more, true, lev))
            && esub + AltsLen(more) == if more.Or? then e - 1 + AltsLen(more.more) else e
  {
    hide Holds, AltsHold, Depth, Len, AltsLen;
    Balanced(g.strip, ssub, f);
    AltsAre(g.strip, esub + 1, more);
    var q := esub + 2 + Len(more.re);
    OneDeeper(g.strip, esub);
    OneDeeper(g.strip, esub + 1);
    if more.Or? { AltsFront(g.strip, q + 1, more.more); }
  }

  lemma OneDeeper(s: seq<Op>, k: int)
    requires 0 <= k < |s|
    ensures Depth(s, k + 1) == Depth(s, k) + Weight(s[k])
  {
  }

  lemma AltsFront(s: seq<Op>, pc: int, a: Alts)
    requires AltsHold(s, pc, a)
    ensures 0 <= pc < |s| && s[pc].OOR2?
  {
  }

  // ----- the method -----

  /** The loop over the operators that leave no choice: it fails, arrives, or stands before a hard one. */
  method GoEasy(m: Match, start: int, stop: int, startst: nat, stopst: nat, ghost lo: int, ghost re: Re, ghost lev: int)
    returns (hard: bool, ok: bool, sp: int, ss: nat)
    requires PlacedIn(m.g, lo, re, stopst, startst, lev)
    requires m.x.Valid() && m.x.begin <= start <= stop <= m.x.end
    ensures EasyWay(m.g, m.x, start, stop, startst, stopst) ==
            if !ok then Fails else if hard then Choose(ss, sp) else Arrives(sp)
    ensures ok ==> m.x.begin <= sp <= stop
    ensures ok && hard ==> ss < stopst && PlacedIn(m.g, lo, re, stopst, ss, lev)
  {
    sp, ss := start, startst;
    hard, ok := false, true;
    while !hard && ss < stopst
      invariant m.x.begin <= sp <= stop && PlacedIn(m.g, lo, re, stopst, ss, lev)
      invariant hard ==> ss < stopst && !IsEasy(m.g.strip[ss])
      invariant EasyWay(m.g, m.x, start, stop, startst, stopst) == EasyWay(m.g, m.x, sp, stop, ss, stopst)
      decreases !hard, stopst - ss
    {
      if IsEasy(m.g.strip[ss]) {
        EasyNextInside(m.g, lo, re, stopst, ss, lev);
        var q := EasyMove(m.g, m.x, m.g.strip[ss], sp, stop);
        if q.None? { return false, false, sp, ss; }
        sp := q.value;
        ss := EasyNext(m.g, ss);
      } else {
        hard := true;
      }
    }
  }

  method Backref(m: Match, pm: array<RegMatch>, lastpos: array<int>, fuel: nat, start: int, stop: int,
                 startst: nat, stopst: nat, lev: int, ghost lo: int, ghost re: Re) returns (r: Outcome)
    requires PlacedIn(m.g, lo, re, stopst, startst, lev) && WellCompiled(m.g, pm.Length, lastpos.Length - 1)
    requires m.x.Valid() && m.x.begin <= start <= stop <= m.x.end && lastpos.Length >= 1
    modifies pm, lastpos
    ensures (r, Store(pm[..], lastpos[..])) ==
            Backtrack(m.g, m.x, fuel, start, stop, startst, stopst, lev, old(Store(pm[..], lastpos[..])))
    decreases fuel, 2
  {
    if fuel == 0 { return OutOfFuel; }
    var hard, ok, sp, ss := GoEasy(m, start, stop, startst, stopst, lo, re, lev);
    if !ok { return NoMatch; }
    if !hard {
      // no operator that leaves a choice was met
      return if sp != stop then NoMatch else Done(sp);
    }
    r := BackrefHard(m, pm, lastpos, fuel, sp, stop, ss, stopst, lev, lo, re);
  }

  /** The operator at ss leaves a choice, or touches the tables. */
  method BackrefHard(m: Match, pm: array<RegMatch>, lastpos: array<int>, fuel: nat, sp: int, stop: int,
                     ss: nat, stopst: nat, lev: int, ghost lo: int, ghost re: Re) returns (r: Outcome)
    requires fuel > 0 && ss < stopst
    requires PlacedIn(m.g, lo, re, stopst, ss, lev) && WellCompiled(m.g, pm.Length, lastpos.Length - 1)
    requires m.x.Valid() && m.x.begin <= sp <= stop <= m.x.end && lastpos.Length >= 1
    modifies pm, lastpos
    ensures (r, Store(pm[..], lastpos[..])) ==
            Chosen(m.g, m.x, fuel, sp, stop, ss, stopst, lev, old(Store(pm[..], lastpos[..])))
    decreases fuel, 1
  {
    assert WellCompiledAt(m.g, pm.Length, lastpos.Length - 1, ss);
    NextInside(m.g, lo, re, stopst, ss, lev);
    hide WellCompiled, PlacedIn, Backtrack, Branches, Depth, EasyWay;
    var s := m.g.strip[ss];
    if s.OBACK_? {
      var q := BackMove(m.x, pm[..], s.paren, sp, stop);
      if q.None? { return NoMatch; }
      BackInside(m.g, pm.Length, lastpos.Length - 1, lo, re, stopst, ss, lev);
      r := Backref(m, pm, lastpos, fuel - 1, q.value, stop, NextBack(m.g, ss, s.paren) + 1, stopst, lev, lo, re);
    } else if s.OQUEST_? {
      // the body first, then the way around it
      QuestInside(m.g, lo, re, stopst, ss, lev);
      r := Backref(m, pm, lastpos, fuel - 1, sp, stop, ss + 1, stopst, lev, lo, re);
      if r == NoMatch {
        r := Backref(m, pm, lastpos, fuel - 1, sp, stop, ss + s.fwd + 1, stopst, lev, lo, re);
      }
    } else if s.OPLUS_? {
      lastpos[lev + 1] := sp;
      r := Backref(m, pm, lastpos, fuel - 1, sp, stop, ss + 1, stopst, lev + 1, lo, re);
    } else if s.O_PLUS? {
      r := BackrefLoop(m, pm, lastpos, fuel, sp, stop, ss, stopst, lev, lo, re);
    } else if s.OCH_? {
      r := BackrefChoice(m, pm, lastpos, fuel, sp, stop, ss, stopst, lev, lo, re);
    } else if s.OLPAREN? || s.ORPAREN? {
      r := BackrefParen(m, pm, lastpos, fuel, sp, stop, ss, stopst, lev, lo, re);
    } else {
      r := NoMatch;  // no operator of the code of a tree
    }
  }

  method BackrefLoop(m: Match, pm: array<RegMatch>, lastpos: array<int>, fuel: nat, sp: int, stop: int,
                     ss: nat, stopst: nat, lev: int, ghost lo: int, ghost re: Re) returns (r: Outcome)
    requires fuel > 0 && ss < stopst
    requires PlacedIn(m.g, lo, re, stopst, ss, lev) && m.g.strip[ss].O_PLUS? && WellCompiled(m.g, pm.Length, lastpos.Length - 1)
    requires m.x.Valid() && m.x.begin <= sp <= stop <= m.x.end && lastpos.Length >= 1
    modifies pm, lastpos
    ensures (r, Store(pm[..], lastpos[..])) ==
            Chosen(m.g, m.x, fuel, sp, stop, ss, stopst, lev, old(Store(pm[..], lastpos[..])))
    decreases fuel, 0
  {
    assert WellCompiledAt(m.g, pm.Length, lastpos.Length - 1, ss);
    LoopInside(m.g, lo, re, stopst, ss, lev);
    if sp == lastpos[lev] {
      // the pass that ends here took no text
      r := Backref(m, pm, lastpos, fuel - 1, sp, stop, ss + 1, stopst, lev - 1, lo, re);
    } else {
      // the body again, and only then the way out
      lastpos[lev] := sp;
      r := Backref(m, pm, lastpos, fuel - 1, sp, stop, ss - m.g.strip[ss].back + 1, stopst, lev, lo, re);
      if r == NoMatch {
        r := Backref(m, pm, lastpos, fuel - 1, sp, stop, ss + 1, stopst, lev - 1, lo, re);
      }
    }
  }

  /** Must undo the assignment if the rest fails. */
  method BackrefParen(m: Match, pm: array<RegMatch>, lastpos: array<int>, fuel: nat, sp: int, stop: int,
                      ss: nat, stopst: nat, lev: int, ghost lo: int, ghost re: Re) returns (r: Outcome)
    requires fuel > 0 && ss < stopst
    requires PlacedIn(m.g, lo, re, stopst, ss, lev) && (m.g.strip[ss].OLPAREN? || m.g.strip[ss].ORPAREN?) && WellCompiled(m.g, pm.Length, lastpos.Length - 1)
    requires m.x.Valid() && m.x.begin <= sp <= stop <= m.x.end && lastpos.Length >= 1
    modifies pm, lastpos
    ensures (r, Store(pm[..], lastpos[..])) ==
            Chosen(m.g, m.x, fuel, sp, stop, ss, stopst, lev, old(Store(pm[..], lastpos[..])))
    decreases fuel, 0
  {
    assert WellCompiledAt(m.g, pm.Length, lastpos.Length - 1, ss);
    NextInside(m.g, lo, re, stopst, ss, lev);
    var i := m.g.strip[ss].paren;
    if m.g.strip[ss].OLPAREN? {
      var offsave := pm[i].so;
      pm[i] := pm[i].(so := sp);
      r := Backref(m, pm, lastpos, fuel - 1, sp, stop, ss + 1, stopst, lev, lo, re);
      if r == NoMatch { pm[i] := pm[i].(so := offsave); }
    } else {
      var offsave := pm[i].eo;
      pm[i] := pm[i].(eo := sp);
      r := Backref(m, pm, lastpos, fuel - 1, sp, stop, ss + 1, stopst, lev, lo, re);
      if r == NoMatch { pm[i] := pm[i].(eo := offsave); }
    }
  }

  /** Find the right branch, if any. */
  method BackrefChoice(m: Match, pm: array<RegMatch>, lastpos: array<int>, fuel: nat, sp: int, stop: int,
                       ss: nat, stopst: nat, lev: int, ghost lo: int, ghost re: Re) returns (r: Outcome)
    requires fuel > 0 && ss < stopst
    requires PlacedIn(m.g, lo, re, stopst, ss, lev) && m.g.strip[ss].OCH_? && WellCompiled(m.g, pm.Length, lastpos.Length - 1)
    requires m.x.Valid() && m.x.begin <= sp <= stop <= m.x.end && lastpos.Length >= 1
    modifies pm, lastpos
    ensures (r, Store(pm[..], lastpos[..])) ==
            Chosen(m.g, m.x, fuel, sp, stop, ss, stopst, lev, old(Store(pm[..], lastpos[..])))
    decreases fuel, 0
  {
    ghost var s0 := Store(pm[..], lastpos[..]);
    ghost var f, more := FirstBranchInside(m.g, lo, re, stopst, ss, lev);
    ghost var last := false;
    var ssub := ss + 1;
    var esub := ss + m.g.strip[ss].fwd - 1;
    while true
      invariant Trying(m.g, ssub, esub, f, more, last, lev)
      invariant Chosen(m.g, m.x, fuel, sp, stop, ss, stopst, lev, s0) ==
                Branches(m.g, m.x, fuel - 1, sp, stop, ssub, esub, lev, Store(pm[..], lastpos[..]))
      decreases !last, more
    {
      r := Backref(m, pm, lastpos, fuel - 1, sp, stop, ssub, esub, lev, ssub, f);
      if r != NoMatch { return; }
      if m.g.strip[esub].O_CH? { return; }
      NextBranchInside(m.g, ssub, esub, f, more, lev);
      esub := esub + 1;
      ssub := esub + 1;
      esub := esub + m.g.strip[esub].fwd;
      f := more.re;
      if m.g.strip[esub].OOR2? {
        esub := esub - 1;
        more := more.more;
      } else {
        last := true;
      }
    }
  }
}
