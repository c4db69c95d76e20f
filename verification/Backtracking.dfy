/** backref() as a function: the backtracker that takes back references into account.  It has no
    termination measure, so it is given fuel; each call that it makes on itself costs one unit. */
module Backtracking {
  import opened Strip
  import opened Regex
  import opened Options
  import opened Scanning
  import opened Captures

  datatype Outcome = OutOfFuel | NoMatch | Done(dp: int)

  /** What backref() changes in place: the sub-matches, and where the loops were last entered. */
  datatype Store = Store(pm: seq<RegMatch>, lastpos: seq<int>)

  // ----- the easy operators -----

  predicate IsNewline(x: Subject, p: int) {
    0 <= p < |x.text| && x.text[p] == '\n'
  }

  predicate WordAt(x: Subject, p: int) {
    0 <= p < |x.text| && IsWord(x.text[p])
  }

  predicate BackBol(g: Guts, x: Subject, p: int) {
    (p == x.begin && !x.notbol) || (p < x.end && IsNewline(x, p - 1) && g.newline)
  }

  predicate BackEol(g: Guts, x: Subject, p: int) {
    (p == x.end && !x.noteol) || (p < x.end && IsNewline(x, p) && g.newline)
  }

  predicate BackBow(g: Guts, x: Subject, p: int) {
    (BackBol(g, x, p) || (p > x.begin && !WordAt(x, p - 1))) && p < x.end && WordAt(x, p)
  }

  predicate BackEow(g: Guts, x: Subject, p: int) {
    (BackEol(g, x, p) || (p < x.end && !WordAt(x, p))) && p > x.begin && WordAt(x, p - 1)
  }

  /** Operators that need no choice, and what they do to the place in the text; -1 if they fail. */
  function EasyMove(g: Guts, x: Subject, op: Op, sp: int, stop: int): Option<int> {
    match op
    case OCHAR(c) => if sp < stop && CharAt(x, sp) && x.text[sp] == c then Some(sp + 1) else None
    case OANY => if sp < stop && CharAt(x, sp) then Some(sp + 1) else None
    case OANYOF(n) => if sp < stop && CharAt(x, sp) && ChIn(g, n, x.text[sp]) then Some(sp + 1) else None
    case OBOL => if BackBol(g, x, sp) then Some(sp) else None
    case OEOL => if BackEol(g, x, sp) then Some(sp) else None
    case OBOW => if BackBow(g, x, sp) then Some(sp) else None
    case OEOW => if BackEow(g, x, sp) then Some(sp) else None
    case _ => Some(sp)
  }

  predicate IsEasy(op: Op) {
    IsConsuming(op) || op.O_QUEST? || op.OOR1?
  }

  /** Where an easy operator leads. */
  function EasyNext(g: Guts, ss: int): int
    requires 0 <= ss < |g.strip|
  {
    if g.strip[ss].OOR1? then ChoiceEnd(g, ss + 1) + 1 else ss + 1
  }

  datatype Way = Fails | Arrives(sp: int) | Choose(ss: int, sp: int)

  /** The easy operators from ss on, up to the goal, a failure, or an operator that leaves a choice. */
  function EasyWay(g: Guts, x: Subject, sp: int, stop: int, ss: int, stopst: int): Way
    decreases stopst - ss
  {
    if ss >= stopst || ss < 0 || ss >= |g.strip| then Arrives(sp)
    else if !IsEasy(g.strip[ss]) then Choose(ss, sp)
    else
      var q := EasyMove(g, x, g.strip[ss], sp, stop);
      if q.None? then Fails else EasyWay(g, x, q.value, stop, EasyNext(g, ss), stopst)
  }

  // ----- the hard ones -----

  /** The first O_BACK of group i at or after ss; the length of the strip if there is none. */
  function NextBack(g: Guts, ss: int, i: nat): (q: int)
    ensures ss <= q
    decreases |g.strip| - ss
  {
    if 0 <= ss < |g.strip| && g.strip[ss] != O_BACK(i) then NextBack(g, ss + 1, i) else ss
  }

  /** The text that group i holds, if it is set, occurs at sp; where it ends there. */
  function BackMove(x: Subject, pm: seq<RegMatch>, i: nat, sp: int, stop: int): Option<int> {
    if !(i < |pm|) || pm[i].eo == -1 then None
    else
      var len := pm[i].eo - pm[i].so;
      if sp > stop - len then None
      else if 0 <= len && 0 <= sp && sp + len <= |x.text| && 0 <= pm[i].so && pm[i].eo <= |x.text| &&
              x.text[sp..sp + len] == x.text[pm[i].so..pm[i].eo] then Some(sp + len)
      else None
  }

  function LastAt(lastpos: seq<int>, lev: int): int {
    if 0 <= lev < |lastpos| then lastpos[lev] else -1
  }

  function SetLast(lastpos: seq<int>, lev: int, sp: int): (r: seq<int>)
    ensures |r| == |lastpos|
  {
    if 0 <= lev < |lastpos| then lastpos[lev := sp] else lastpos
  }

  function Backtrack(g: Guts, x: Subject, fuel: nat, start: int, stop: int, startst: int, stopst: int, lev: int, s: Store):
    (Outcome, Store)
    decreases fuel, 1, 0
  {
    if fuel == 0 then (OutOfFuel, s)
    else
      match EasyWay(g, x, start, stop, startst, stopst)
      case Fails => (NoMatch, s)
      case Arrives(sp) => (if sp != stop then NoMatch else Done(sp), s)
      case Choose(ss, sp) => if 0 <= ss < |g.strip| then Chosen(g, x, fuel, sp, stop, ss, stopst, lev, s) else (NoMatch, s)
  }

  function Chosen(g: Guts, x: Subject, fuel: nat, sp: int, stop: int, ss: int, stopst: int, lev: int, s: Store):
    (Outcome, Store)
    requires fuel > 0 && 0 <= ss < |g.strip|
    decreases fuel, 0, 0
  {
    var f := fuel - 1;
    match g.strip[ss]
    case OBACK_(i) =>
      var q := BackMove(x, s.pm, i, sp, stop);
      if q.None? then (NoMatch, s)
      else Backtrack(g, x, f, q.value, stop, NextBack(g, ss, i) + 1, stopst, lev, s)
    case OQUEST_(n) =>
      var r := Backtrack(g, x, f, sp, stop, ss + 1, stopst, lev, s);
      if !r.0.NoMatch? then r else Backtrack(g, x, f, sp, stop, ss + n + 1, stopst, lev, r.1)
    case OPLUS_(_) =>
      Backtrack(g, x, f, sp, stop, ss + 1, stopst, lev + 1, s.(lastpos := SetLast(s.lastpos, lev + 1, sp)))
    case O_PLUS(n) =>
      if sp == LastAt(s.lastpos, lev) then Backtrack(g, x, f, sp, stop, ss + 1, stopst, lev - 1, s)
      else
        var r := Backtrack(g, x, f, sp, stop, ss - n + 1, stopst, lev, s.(lastpos := SetLast(s.lastpos, lev, sp)));
        if !r.0.NoMatch? then r else Backtrack(g, x, f, sp, stop, ss + 1, stopst, lev - 1, r.1)
    case OCH_(n) => Branches(g, x, f, sp, stop, ss + 1, ss + n - 1, lev, s)
    case OLPAREN(i) =>
      var r := Backtrack(g, x, f, sp, stop, ss + 1, stopst, lev, s.(pm := SetStart(s.pm, i, sp)));
      if !r.0.NoMatch? || i >= |s.pm| then r else (NoMatch, r.1.(pm := SetStart(r.1.pm, i, s.pm[i].so)))
    case ORPAREN(i) =>
      var r := Backtrack(g, x, f, sp, stop, ss + 1, stopst, lev, s.(pm := SetEnd(s.pm, i, sp)));
      if !r.0.NoMatch? || i >= |s.pm| then r else (NoMatch, r.1.(pm := SetEnd(r.1.pm, i, s.pm[i].eo)))
    case _ => (NoMatch, s)
  }

  /** The branches of a choice in turn, each run up to its own end. */
  function Branches(g: Guts, x: Subject, fuel: nat, sp: int, stop: int, ssub: int, esub: int, lev: int, s: Store):
    (Outcome, Store)
    decreases fuel, 2, |g.strip| - esub
  {
    var r := Backtrack(g, x, fuel, sp, stop, ssub, esub, lev, s);
    if !r.0.NoMatch? then r
    else if !(0 <= esub && esub + 1 < |g.strip|) || g.strip[esub].O_CH? || !g.strip[esub + 1].OOR2? then r
    else
      var e := esub + 1 + g.strip[esub + 1].fwd;
      var e' := if 0 <= e < |g.strip| && g.strip[e].OOR2? then e - 1 else e;
      if e' <= esub then r else Branches(g, x, fuel, sp, stop, esub + 2, e', lev, r.1)
  }

  // ----- it undoes what it did -----

  /** On failure the sub-matches are as they were. */
  lemma {:induction false} FailureUndoes(g: Guts, x: Subject, fuel: nat, start: int, stop: int, startst: int, stopst: int, lev: int, s: Store)
    ensures var r := Backtrack(g, x, fuel, start, stop, startst, stopst, lev, s);
            && |r.1.pm| == |s.pm| && |r.1.lastpos| == |s.lastpos|
            && (r.0.NoMatch? ==> r.1.pm == s.pm)
            && (r.0.Done? ==> r.0.dp == stop)
    decreases fuel, 1, 0
  {
    if fuel > 0 {
      var w := EasyWay(g, x, start, stop, startst, stopst);
      if w.Choose? && 0 <= w.ss < |g.strip| {
        ChosenUndoes(g, x, fuel, w.sp, stop, w.ss, stopst, lev, s);
      }
    }
  }

  lemma {:induction false} ChosenUndoes(g: Guts, x: Subject, fuel: nat, sp: int, stop: int, ss: int, stopst: int, lev: int, s: Store)
    requires fuel > 0 && 0 <= ss < |g.strip|
    ensures var r := Chosen(g, x, fuel, sp, stop, ss, stopst, lev, s);
            && |r.1.pm| == |s.pm| && |r.1.lastpos| == |s.lastpos|
            && (r.0.NoMatch? ==> r.1.pm == s.pm)
            && (r.0.Done? ==> r.0.dp == stop)
    decreases fuel, 0, 0
  {
    hide Backtrack, Branches, NextBack;
    var f := fuel - 1;
    match g.strip[ss]
    case OBACK_(i) =>
      var q := BackMove(x, s.pm, i, sp, stop);
      if q.Some? { FailureUndoes(g, x, f, q.value, stop, NextBack(g, ss, i) + 1, stopst, lev, s); }
    case OQUEST_(n) =>
      FailureUndoes(g, x, f, sp, stop, ss + 1, stopst, lev, s);
      FailureUndoes(g, x, f, sp, stop, ss + n + 1, stopst, lev, Backtrack(g, x, f, sp, stop, ss + 1, stopst, lev, s).1);
    case OPLUS_(_) =>
      FailureUndoes(g, x, f, sp, stop, ss + 1, stopst, lev + 1, s.(lastpos := SetLast(s.lastpos, lev + 1, sp)));
    case O_PLUS(n) =>
      var s' := s.(lastpos := SetLast(s.lastpos, lev, sp));
      FailureUndoes(g, x, f, sp, stop, ss + 1, stopst, lev - 1, s);
      FailureUndoes(g, x, f, sp, stop, ss - n + 1, stopst, lev, s');
      FailureUndoes(g, x, f, sp, stop, ss + 1, stopst, lev - 1, Backtrack(g, x, f, sp, stop, ss - n + 1, stopst, lev, s').1);
    case OCH_(n) =>
      BranchesUndo(g, x, f, sp, stop, ss + 1, ss + n - 1, lev, s);
    case OLPAREN(i) =>
      FailureUndoes(g, x, f, sp, stop, ss + 1, stopst, lev, s.(pm := SetStart(s.pm, i, sp)));
    case ORPAREN(i) =>
      FailureUndoes(g, x, f, sp, stop, ss + 1, stopst, lev, s.(pm := SetEnd(s.pm, i, sp)));
    case _ =>
  }

  lemma {:induction false} BranchesUndo(g: Guts, x: Subject, fuel: nat, sp: int, stop: int, ssub: int, esub: int, lev: int, s: Store)
    ensures var r := Branches(g, x, fuel, sp, stop, ssub, esub, lev, s);
            && |r.1.pm| == |s.pm| && |r.1.lastpos| == |s.lastpos|
            && (r.0.NoMatch? ==> r.1.pm == s.pm)
            && (r.0.Done? ==> r.0.dp == stop)
    decreases fuel, 2, |g.strip| - esub
  {
    FailureUndoes(g, x, fuel, sp, stop, ssub, esub, lev, s);
    var r := Backtrack(g, x, fuel, sp, stop, ssub, esub, lev, s);
    if r.0.NoMatch? && 0 <= esub && esub + 1 < |g.strip| && !g.strip[esub].O_CH? && g.strip[esub + 1].OOR2? {
      var e := esub + 1 + g.strip[esub + 1].fwd;
      var e' := if 0 <= e < |g.strip| && g.strip[e].OOR2? then e - 1 else e;
      if e' > esub { BranchesUndo(g, x, fuel, sp, stop, esub + 2, e', lev, r.1); }
    }
  }

  // ----- fuel -----

  /** A search that has ended does not change when it is given more fuel. */
  lemma {:induction false} MoreFuel(g: Guts, x: Subject, fuel: nat, more: nat, start: int, stop: int, startst: int, stopst: int, lev: int, s: Store)
    requires fuel <= more && Backtrack(g, x, fuel, start, stop, startst, stopst, lev, s).0 != OutOfFuel
    ensures Backtrack(g, x, more, start, stop, startst, stopst, lev, s) == Backtrack(g, x, fuel, start, stop, startst, stopst, lev, s)
    decreases fuel, 1, 0
  {
    var w := EasyWay(g, x, start, stop, startst, stopst);
    if fuel > 0 && w.Choose? && 0 <= w.ss < |g.strip| {
      ChosenMoreFuel(g, x, fuel, more, w.sp, stop, w.ss, stopst, lev, s);
    }
  }

  lemma {:induction false} ChosenMoreFuel(g: Guts, x: Subject, fuel: nat, more: nat, sp: int, stop: int, ss: int, stopst: int, lev: int, s: Store)
    requires 0 < fuel <= more && 0 <= ss < |g.strip|
    requires Chosen(g, x, fuel, sp, stop, ss, stopst, lev, s).0 != OutOfFuel
    ensures Chosen(g, x, more, sp, stop, ss, stopst, lev, s) == Chosen(g, x, fuel, sp, stop, ss, stopst, lev, s)
    decreases fuel, 0, 0
  {
    hide Backtrack, Branches, NextBack, BackMove, SetStart, SetEnd, SetLast;
    var f, k := fuel - 1, more - 1;
    match g.strip[ss]
    case OBACK_(i) =>
      var q := BackMove(x, s.pm, i, sp, stop);
      if q.Some? { MoreFuel(g, x, f, k, q.value, stop, NextBack(g, ss, i) + 1, stopst, lev, s); }
    case OQUEST_(n) =>
      MoreFuel(g, x, f, k, sp, stop, ss + 1, stopst, lev, s);
      var r := Backtrack(g, x, f, sp, stop, ss + 1, stopst, lev, s);
      if r.0.NoMatch? { MoreFuel(g, x, f, k, sp, stop, ss + n + 1, stopst, lev, r.1); }
    case OPLUS_(_) =>
      MoreFuel(g, x, f, k, sp, stop, ss + 1, stopst, lev + 1, s.(lastpos := SetLast(s.lastpos, lev + 1, sp)));
    case O_PLUS(n) =>
      if sp == LastAt(s.lastpos, lev) {
        MoreFuel(g, x, f, k, sp, stop, ss + 1, stopst, lev - 1, s);
      } else {
        var s' := s.(lastpos := SetLast(s.lastpos, lev, sp));
        MoreFuel(g, x, f, k, sp, stop, ss - n + 1, stopst, lev, s');
        var r := Backtrack(g, x, f, sp, stop, ss - n + 1, stopst, lev, s');
        if r.0.NoMatch? { MoreFuel(g, x, f, k, sp, stop, ss + 1, stopst, lev - 1, r.1); }
      }
    case OCH_(n) =>
      BranchesMoreFuel(g, x, f, k, sp, stop, ss + 1, ss + n - 1, lev, s);
    case OLPAREN(i) =>
      MoreFuel(g, x, f, k, sp, stop, ss + 1, stopst, lev, s.(pm := SetStart(s.pm, i, sp)));
    case ORPAREN(i) =>
      MoreFuel(g, x, f, k, sp, stop, ss + 1, stopst, lev, s.(pm := SetEnd(s.pm, i, sp)));
    case _ =>
  }

  lemma {:induction false} BranchesMoreFuel(g: Guts, x: Subject, fuel: nat, more: nat, sp: int, stop: int, ssub: int, esub: int, lev: int, s: Store)
    requires fuel <= more && Branches(g, x, fuel, sp, stop, ssub, esub, lev, s).0 != OutOfFuel
    ensures Branches(g, x, more, sp, stop, ssub, esub, lev, s) == Branches(g, x, fuel, sp, stop, ssub, esub, lev, s)
    decreases fuel, 2, |g.strip| - esub
  {
    MoreFuel(g, x, fuel, more, sp, stop, ssub, esub, lev, s);
    var r := Backtrack(g, x, fuel, sp, stop, ssub, esub, lev, s);
    if r.0.NoMatch? && 0 <= esub && esub + 1 < |g.strip| && !g.strip[esub].O_CH? && g.strip[esub + 1].OOR2? {
      var e := esub + 1 + g.strip[esub + 1].fwd;
      var e' := if 0 <= e < |g.strip| && g.strip[e].OOR2? then e - 1 else e;
      if e' > esub { BranchesMoreFuel(g, x, fuel, more, sp, stop, esub + 2, e', lev, r.1); }
    }
  }
}
