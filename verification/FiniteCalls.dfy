/** There are only so many calls that backref() can make, so one that does not end comes back to itself. */
module FiniteCalls {
  import opened Strip
  import opened Regex
  import opened Options
  import opened Captures
  import opened Backtracking
  import opened Layout
  import opened BackrefInPlace
  import opened BackRuns
  import opened Recurrence

  // ----- the tables stay inside the text -----

  predicate IsPlace(p: int, stop: int) {
    -1 <= p <= stop
  }

  predicate Kept(s: Store, size: nat, levels: nat, stop: int) {
    && |s.pm| == size && |s.lastpos| == levels
    && (forall i | 0 <= i < size :: IsPlace(s.pm[i].so, stop) && IsPlace(s.pm[i].eo, stop))
    && (forall i | 0 <= i < levels :: IsPlace(s.lastpos[i], stop))
  }

  lemma {:induction false} WayForward(g: Guts, x: Subject, sp: int, stop: int, ss: int, stopst: int)
    requires sp <= stop
    ensures var w := EasyWay(g, x, sp, stop, ss, stopst); w.Choose? ==> sp <= w.sp <= stop
    decreases stopst - ss
  {
    if 0 <= ss < stopst && ss < |g.strip| && IsEasy(g.strip[ss]) {
      var q := EasyMove(g, x, g.strip[ss], sp, stop);
      if q.Some? { WayForward(g, x, q.value, stop, EasyNext(g, ss), stopst); }
    }
  }

  lemma {:induction false} BacktrackKeeps(g: Guts, x: Subject, fuel: nat, start: int, stop: int, startst: int, stopst: int, lev: int, s: Store, size: nat, levels: nat)
    requires Kept(s, size, levels, x.end) && -1 <= start <= stop <= x.end
    ensures Kept(Backtrack(g, x, fuel, start, stop, startst, stopst, lev, s).1, size, levels, x.end)
    decreases fuel, 1, 0
  {
    hide Kept;
    if fuel > 0 {
      WayForward(g, x, start, stop, startst, stopst);
      var w := EasyWay(g, x, start, stop, startst, stopst);
      if w.Choose? && 0 <= w.ss < |g.strip| { ChosenKeeps(g, x, fuel, w.sp, stop, w.ss, stopst, lev, s, size, levels); }
    }
  }

  lemma SetKeeps(s: Store, size: nat, levels: nat, stop: int, i: nat, lev: int, p: int)
    requires Kept(s, size, levels, stop) && IsPlace(p, stop)
    ensures Kept(s.(pm := SetStart(s.pm, i, p)), size, levels, stop)
    ensures Kept(s.(pm := SetEnd(s.pm, i, p)), size, levels, stop)
    ensures Kept(s.(lastpos := SetLast(s.lastpos, lev, p)), size, levels, stop)
  {
  }

  lemma WasPlace(s: Store, size: nat, levels: nat, stop: int, i: nat)
    requires Kept(s, size, levels, stop) && i < |s.pm|
    ensures IsPlace(s.pm[i].so, stop) && IsPlace(s.pm[i].eo, stop)
  {
  }

  lemma {:induction false} ChosenKeeps(g: Guts, x: Subject, fuel: nat, sp: int, stop: int, ss: int, stopst: int, lev: int, s: Store, size: nat, levels: nat)
    requires fuel > 0 && 0 <= ss < |g.strip| && Kept(s, size, levels, x.end) && -1 <= sp <= stop <= x.end
    ensures Kept(Chosen(g, x, fuel, sp, stop, ss, stopst, lev, s).1, size, levels, x.end)
    decreases fuel, 0, 0
  {
    hide Kept;
    var f := fuel - 1;
    match g.strip[ss]
    case OBACK_(i) =>
      var q := BackMove(x, s.pm, i, sp, stop);
      if q.Some? { BacktrackKeeps(g, x, f, q.value, stop, NextBack(g, ss, i) + 1, stopst, lev, s, size, levels); }
    case OQUEST_(n) =>
      BacktrackKeeps(g, x, f, sp, stop, ss + 1, stopst, lev, s, size, levels);
      BacktrackKeeps(g, x, f, sp, stop, ss + n + 1, stopst, lev, Backtrack(g, x, f, sp, stop, ss + 1, stopst, lev, s).1, size, levels);
    case OPLUS_(_) =>
      SetKeeps(s, size, levels, x.end, 0, lev + 1, sp);
      BacktrackKeeps(g, x, f, sp, stop, ss + 1, stopst, lev + 1, s.(lastpos := SetLast(s.lastpos, lev + 1, sp)), size, levels);
    case O_PLUS(n) =>
      var s' := s.(lastpos := SetLast(s.lastpos, lev, sp));
      SetKeeps(s, size, levels, x.end, 0, lev, sp);
      BacktrackKeeps(g, x, f, sp, stop, ss + 1, stopst, lev - 1, s, size, levels);
      BacktrackKeeps(g, x, f, sp, stop, ss - n + 1, stopst, lev, s', size, levels);
      BacktrackKeeps(g, x, f, sp, stop, ss + 1, stopst, lev - 1, Backtrack(g, x, f, sp, stop, ss - n + 1, stopst, lev, s').1, size, levels);
    case OCH_(n) => BranchesKeep(g, x, f, sp, stop, ss + 1, ss + n - 1, lev, s, size, levels);
    case OLPAREN(i) =>
      var s' := s.(pm := SetStart(s.pm, i, sp));
      SetKeeps(s, size, levels, x.end, i, 0, sp);
      BacktrackKeeps(g, x, f, sp, stop, ss + 1, stopst, lev, s', size, levels);
      if i < |s.pm| {
        WasPlace(s, size, levels, x.end, i);
        SetKeeps(Backtrack(g, x, f, sp, stop, ss + 1, stopst, lev, s').1, size, levels, x.end, i, 0, s.pm[i].so);
      }
    case ORPAREN(i) =>
      var s' := s.(pm := SetEnd(s.pm, i, sp));
      SetKeeps(s, size, levels, x.end, i, 0, sp);
      BacktrackKeeps(g, x, f, sp, stop, ss + 1, stopst, lev, s', size, levels);
      if i < |s.pm| {
        WasPlace(s, size, levels, x.end, i);
        SetKeeps(Backtrack(g, x, f, sp, stop, ss + 1, stopst, lev, s').1, size, levels, x.end, i, 0, s.pm[i].eo);
      }
    case _ =>
  }

  lemma {:induction false} BranchesKeep(g: Guts, x: Subject, fuel: nat, sp: int, stop: int, ssub: int, esub: int, lev: int, s: Store, size: nat, levels: nat)
    requires Kept(s, size, levels, x.end) && -1 <= sp <= stop <= x.end
    ensures Kept(Branches(g, x, fuel, sp, stop, ssub, esub, lev, s).1, size, levels, x.end)
    decreases fuel, 2, |g.strip| - esub
  {
    hide Kept;
    BacktrackKeeps(g, x, fuel, sp, stop, ssub, esub, lev, s, size, levels);
    var r := Backtrack(g, x, fuel, sp, stop, ssub, esub, lev, s);
    var e := NextEnd(g, esub);
    if r.0.NoMatch? && e > esub { BranchesKeep(g, x, fuel, sp, stop, esub + 2, e, lev, r.1, size, levels); }
  }

  lemma ResultKeeps(z: Search, c: Call, size: nat, levels: nat)
    requires Ends(z, c) && Kept(c.s, size, levels, z.x.end) && -1 <= c.sp <= z.stop <= z.x.end
    ensures Kept(Result(z, c).1, size, levels, z.x.end)
  {
    hide Backtrack, Kept;
    var fuel := EnoughFuel(z, c);
    BacktrackKeeps(z.g, z.x, fuel, c.sp, z.stop, c.ss, c.stopst, c.lev, c.s, size, levels);
    assert Made(z, fuel, c) == Result(z, c);
  }

  // ----- the calls stay inside the strip -----

  ghost predicate PlacedCall(z: Search, size: nat, nplus: nat, c: Call) {
    exists lo, re :: Placed(z.g, size, nplus, lo, re, c.stopst, c.ss, c.lev)
  }

  ghost predicate Fine(z: Search, size: nat, nplus: nat, c: Call) {
    && z.x.Valid() && z.x.begin <= c.sp <= z.stop <= z.x.end
    && Kept(c.s, size, nplus + 1, z.x.end) && PlacedCall(z, size, nplus, c)
  }

  lemma SecondIsFine(z: Search, size: nat, nplus: nat, a: Call, b: Call)
    requires Fine(z, size, nplus, a) && Fine(z, size, nplus, b)
    ensures Second(z, a, b).Some? ==> Fine(z, size, nplus, Second(z, a, b).value)
  {
    hide Kept, Placed;
    if Ends(z, a) {
      ResultKeeps(z, a, size, nplus + 1);
      var lo, re :| Placed(z.g, size, nplus, lo, re, b.stopst, b.ss, b.lev);
      var d := b.(s := Result(z, a).1);
      assert Placed(z.g, size, nplus, lo, re, d.stopst, d.ss, d.lev);
    }
  }

  lemma {:induction false} BranchIsFine(z: Search, size: nat, nplus: nat, c: Call, ssub: int, esub: int, f: Re, more: Alts, last: bool)
    requires z.x.Valid() && z.x.begin <= c.sp <= z.stop <= z.x.end && Kept(c.s, size, nplus + 1, z.x.end)
    requires WellCompiled(z.g, size, nplus) && Trying(z.g, ssub, esub, f, more, last, c.lev)
    ensures InnerBranch(z, c, ssub, esub).Some? ==> Fine(z, size, nplus, InnerBranch(z, c, ssub, esub).value)
    decreases |z.g.strip| - esub
  {
    hide Kept, WellCompiled, Holds;
    var a := c.(ss := ssub, stopst := esub);
    assert Placed(z.g, size, nplus, ssub, f, a.stopst, a.ss, a.lev);
    if Ends(z, a) && Result(z, a).0.NoMatch? && NextEnd(z.g, esub) > esub {
      ResultKeeps(z, a, size, nplus + 1);
      NextBranchInside(z.g, ssub, esub, f, more, c.lev);
      BranchIsFine(z, size, nplus, c.(s := Result(z, a).1), esub + 2, NextEnd(z.g, esub), more.re,
                   if more.Or? then more.more else more, more.Last?);
    }
  }

  lemma InnerIsFine(z: Search, size: nat, nplus: nat, c: Call)
    requires Fine(z, size, nplus, c) && Inner(z, c).Some?
    ensures Fine(z, size, nplus, Inner(z, c).value)
  {
    hide Kept, WellCompiled, Holds, InnerAt;
    var lo, re :| Placed(z.g, size, nplus, lo, re, c.stopst, c.ss, c.lev);
    EasyWayRuns(z.g, z.x, lo, re, c.stopst, c.sp, z.stop, c.ss, c.lev, c.s.pm);
    WayForward(z.g, z.x, c.sp, z.stop, c.ss, c.stopst);
    var w := EasyWay(z.g, z.x, c.sp, z.stop, c.ss, c.stopst);
    InnerAtIsFine(z, size, nplus, c.(ss := w.ss, sp := w.sp), lo, re);
  }

  lemma CallIsFine(z: Search, size: nat, nplus: nat, c: Call, lo: int, re: Re)
    requires z.x.Valid() && z.x.begin <= c.sp <= z.stop <= z.x.end && Kept(c.s, size, nplus + 1, z.x.end)
    requires Placed(z.g, size, nplus, lo, re, c.stopst, c.ss, c.lev)
    ensures Fine(z, size, nplus, c)
  {
  }

  lemma InnerAtIsFine(z: Search, size: nat, nplus: nat, c: Call, lo: int, re: Re)
    requires z.x.Valid() && z.x.begin <= c.sp <= z.stop <= z.x.end && Kept(c.s, size, nplus + 1, z.x.end)
    requires Placed(z.g, size, nplus, lo, re, c.stopst, c.ss, c.lev) && 0 <= c.ss < |z.g.strip| && c.ss < c.stopst
    requires InnerAt(z, c).Some?
    ensures Fine(z, size, nplus, InnerAt(z, c).value)
  {
    hide Kept, WellCompiled, Holds, Second, Fine;
    var g, ss, stopst, d := z.g, c.ss, c.stopst, c.lev;
    NextInside(g, lo, re, stopst, ss, d);
    match g.strip[ss]
    case OBACK_(i) =>
      BackInside(g, size, nplus, lo, re, stopst, ss, d);
      CallIsFine(z, size, nplus, InnerAt(z, c).value, lo, re);
    case OQUEST_(n) =>
      QuestInside(g, lo, re, stopst, ss, d);
      CallIsFine(z, size, nplus, c.(ss := ss + 1), lo, re);
      CallIsFine(z, size, nplus, c.(ss := ss + n + 1), lo, re);
      SecondIsFine(z, size, nplus, c.(ss := ss + 1), c.(ss := ss + n + 1));
    case OPLUS_(_) =>
      SetKeeps(c.s, size, nplus + 1, z.x.end, 0, d + 1, c.sp);
      CallIsFine(z, size, nplus, InnerAt(z, c).value, lo, re);
    case O_PLUS(n) =>
      var a := c.(ss := ss - n + 1, s := c.s.(lastpos := SetLast(c.s.lastpos, d, c.sp)));
      var b := c.(ss := ss + 1, lev := d - 1);
      SetKeeps(c.s, size, nplus + 1, z.x.end, 0, d, c.sp);
      LoopInside(g, lo, re, stopst, ss, d);
      CallIsFine(z, size, nplus, a, lo, re);
      CallIsFine(z, size, nplus, b, lo, re);
      SecondIsFine(z, size, nplus, a, b);
    case OCH_(n) =>
      var f, more := FirstBranchInside(g, lo, re, stopst, ss, d);
      BranchIsFine(z, size, nplus, c, ss + 1, ss + n - 1, f, more, false);
    case OLPAREN(i) =>
      SetKeeps(c.s, size, nplus + 1, z.x.end, i, 0, c.sp);
      CallIsFine(z, size, nplus, InnerAt(z, c).value, lo, re);
    case ORPAREN(i) =>
      SetKeeps(c.s, size, nplus + 1, z.x.end, i, 0, c.sp);
      CallIsFine(z, size, nplus, InnerAt(z, c).value, lo, re);
    case _ =>
  }

  // ----- all calls there are -----

  ghost function Tables<T>(vals: set<T>, n: nat): set<seq<T>> {
    if n == 0 then {[]} else set v, s | v in vals && s in Tables(vals, n - 1) :: [v] + s
  }

  lemma {:induction false} TablesHold<T>(vals: set<T>, n: nat, s: seq<T>)
    requires |s| == n && forall i | 0 <= i < n :: s[i] in vals
    ensures s in Tables(vals, n)
    decreases n
  {
    if n > 0 {
      TablesHold(vals, n - 1, s[1..]);
      assert s == [s[0]] + s[1..];
    }
  }

  ghost function Places(stop: int): set<int> {
    set p | -1 <= p <= stop && IsPlace(p, stop)
  }

  ghost function Offsets(stop: int): set<RegMatch> {
    set a, b | a in Places(stop) && b in Places(stop) :: RegMatch(a, b)
  }

  ghost function Stores(size: nat, levels: nat, stop: int): set<Store> {
    set pm, lp | pm in Tables(Offsets(stop), size) && lp in Tables(Places(stop), levels) :: Store(pm, lp)
  }

  ghost function Levels(g: Guts): set<int> {
    set k | 0 <= k <= |g.strip| :: Depth(g.strip, k)
  }

  ghost function Calls(z: Search, size: nat, nplus: nat): set<Call> {
    set sp, ss, stopst, lev, s
      | sp in Places(z.x.end) && ss in Places(|z.g.strip|) && stopst in Places(|z.g.strip|) && lev in Levels(z.g)
        && s in Stores(size, nplus + 1, z.x.end) :: Call(sp, ss, stopst, lev, s)
  }

  lemma KeptIsStored(s: Store, size: nat, levels: nat, stop: int)
    requires Kept(s, size, levels, stop)
    ensures s in Stores(size, levels, stop)
  {
    forall i | 0 <= i < size ensures s.pm[i] in Offsets(stop) {
      assert s.pm[i] == RegMatch(s.pm[i].so, s.pm[i].eo);
      assert IsPlace(s.pm[i].so, stop) && IsPlace(s.pm[i].eo, stop);
    }
    forall i | 0 <= i < levels ensures s.lastpos[i] in Places(stop) { assert IsPlace(s.lastpos[i], stop); }
    TablesHold(Offsets(stop), size, s.pm);
    TablesHold(Places(stop), levels, s.lastpos);
  }

  lemma FineIsCalled(z: Search, size: nat, nplus: nat, c: Call)
    requires Fine(z, size, nplus, c)
    ensures c in Calls(z, size, nplus)
  {
    hide Stores, Kept, WellCompiled;
    KeptIsStored(c.s, size, nplus + 1, z.x.end);
    var lo, re :| Placed(z.g, size, nplus, lo, re, c.stopst, c.ss, c.lev);
    assert c == Call(c.sp, c.ss, c.stopst, c.lev, c.s);
  }

  // ----- one of them comes back -----

  /** The n-th call that is waited for, from `c` on. */
  ghost function Nth(z: Search, c: Call, n: nat): Option<Call>
    decreases n
  {
    if n == 0 then Some(c) else if Inner(z, c).Some? then Nth(z, Inner(z, c).value, n - 1) else None
  }

  lemma {:induction false} NthNeverEnds(z: Search, size: nat, nplus: nat, c: Call, n: nat)
    requires Fine(z, size, nplus, c) && !Ends(z, c)
    ensures Nth(z, c, n).Some? && Nth(z, c, n).value in Calls(z, size, nplus)
    decreases n
  {
    hide Ends, Fine, Inner, Calls;
    FineIsCalled(z, size, nplus, c);
    if n > 0 {
      WaitsForEver(z, c);
      InnerIsFine(z, size, nplus, c);
      NthNeverEnds(z, size, nplus, Inner(z, c).value, n - 1);
    }
  }

  lemma {:induction false} NthLeads(z: Search, c: Call, n: nat)
    requires Nth(z, c, n).Some?
    ensures LeadsIn(z, n, c, Nth(z, c, n).value)
    decreases n
  {
    hide Inner;
    if n > 0 { NthLeads(z, Inner(z, c).value, n - 1); }
  }

  /** From each of these calls on to each later one. */
  lemma {:induction false} NthLeadsOn(z: Search, c: Call, i: nat, j: nat)
    requires i <= j && Nth(z, c, i).Some? && Nth(z, c, j).Some?
    ensures LeadsIn(z, j - i, Nth(z, c, i).value, Nth(z, c, j).value)
    decreases i
  {
    hide Inner, LeadsIn;
    if i == 0 { NthLeads(z, c, j); } else { NthLeadsOn(z, Inner(z, c).value, i - 1, j - 1); }
  }

  lemma {:induction false} Pigeons<T>(q: seq<T>, s: set<T>) returns (i: nat, j: nat)
    requires |q| > |s| && forall k | 0 <= k < |q| :: q[k] in s
    ensures i < j < |q| && q[i] == q[j]
    decreases |s|
  {
    var v := q[|q| - 1];
    if k :| 0 <= k < |q| - 1 && q[k] == v {
      i, j := k, |q| - 1;
    } else {
      assert |s - {v}| == |s| - 1;
      i, j := Pigeons(q[..|q| - 1], s - {v});
    }
  }

  /** backref() does not end on a call if and only if, in the middle of it, it comes to some call and, in
      the middle of that one, to the same again: at the same place in the text and in the strip, with
      the same stop state, the same level, the same sub-matches and the same `lastpos`. */
  lemma NeverEndsIff(z: Search, size: nat, nplus: nat, c: Call)
    requires Fine(z, size, nplus, c)
    ensures !Ends(z, c) <==> Recurs(z, c)
  {
    hide Ends, Fine, Calls, LeadsIn, Nth;
    if !Ends(z, c) {
      var all := Calls(z, size, nplus);
      forall n: nat ensures Nth(z, c, n).Some? && Nth(z, c, n).value in all { NthNeverEnds(z, size, nplus, c, n); }
      var i, j := Pigeons(seq(|all| + 1, n requires 0 <= n => Nth(z, c, n).value), all);
      NthLeads(z, c, i);
      NthLeadsOn(z, c, i, j);
    }
    if Recurs(z, c) { RecursNeverEnds(z, c); }
  }
}
