/** Exactly when backref() does not end: when, in the middle of a call, it comes to the same call again. */
module Recurrence {
  import opened Strip
  import opened Regex
  import opened Options
  import opened Captures
  import opened Backtracking
  import opened Layout

  /** What stays the same in all calls of one search. */
  datatype Search = Search(g: Guts, x: Subject, stop: int)

  /** What a call is given, and what it finds in the tables. */
  datatype Call = Call(sp: int, ss: int, stopst: int, lev: int, s: Store)

  function Made(z: Search, fuel: nat, c: Call): (Outcome, Store) {
    Backtrack(z.g, z.x, fuel, c.sp, z.stop, c.ss, c.stopst, c.lev, c.s)
  }

  ghost predicate Ends(z: Search, c: Call) {
    exists fuel: nat :: Made(z, fuel, c).0 != OutOfFuel
  }

  ghost function Result(z: Search, c: Call): (Outcome, Store)
    requires Ends(z, c)
  {
    var fuel: nat :| Made(z, fuel, c).0 != OutOfFuel;
    Made(z, fuel, c)
  }

  lemma ResultIs(z: Search, c: Call, fuel: nat)
    requires Made(z, fuel, c).0 != OutOfFuel
    ensures Ends(z, c) && Result(z, c) == Made(z, fuel, c)
  {
    hide Backtrack;
    forall fuel': nat | Made(z, fuel', c).0 != OutOfFuel ensures Made(z, fuel', c) == Made(z, fuel, c) {
      MadeMore(z, fuel, fuel', c);
      MadeMore(z, fuel', fuel, c);
    }
  }

  lemma MadeMore(z: Search, fuel: nat, more: nat, c: Call)
    requires Made(z, fuel, c).0 != OutOfFuel
    ensures fuel <= more ==> Made(z, more, c) == Made(z, fuel, c)
  {
    if fuel <= more { MoreFuel(z.g, z.x, fuel, more, c.sp, z.stop, c.ss, c.stopst, c.lev, c.s); }
  }

  /** Fuel that is enough for a call that ends. */
  lemma EnoughFuel(z: Search, c: Call) returns (fuel: nat)
    requires Ends(z, c)
    ensures forall more: nat | fuel <= more :: Made(z, more, c) == Result(z, c)
    ensures Result(z, c).0 != OutOfFuel
  {
    hide Backtrack;
    fuel :| Made(z, fuel, c).0 != OutOfFuel;
    ResultIs(z, c, fuel);
    forall more: nat | fuel <= more ensures Made(z, more, c) == Result(z, c) { MadeMore(z, fuel, more, c); }
  }

  // ----- the call that a call waits for -----

  /** Of two calls, the second made if the first fails: the one that is waited for last. */
  ghost function Second(z: Search, a: Call, b: Call): Option<Call> {
    if !Ends(z, a) then Some(a)
    else if Result(z, a).0.NoMatch? then Some(b.(s := Result(z, a).1))
    else None
  }

  /** The call that `c` waits for last; for ever, if that one does not end. */
  ghost function Inner(z: Search, c: Call): Option<Call> {
    match EasyWay(z.g, z.x, c.sp, z.stop, c.ss, c.stopst)
    case Choose(ss, sp) => if 0 <= ss < |z.g.strip| then InnerAt(z, c.(ss := ss, sp := sp)) else None
    case _ => None
  }

  ghost function InnerAt(z: Search, c: Call): Option<Call>
    requires 0 <= c.ss < |z.g.strip|
  {
    match z.g.strip[c.ss]
    case OBACK_(i) =>
      var q := BackMove(z.x, c.s.pm, i, c.sp, z.stop);
      if q.None? then None else Some(c.(sp := q.value, ss := NextBack(z.g, c.ss, i) + 1))
    case OQUEST_(n) => Second(z, c.(ss := c.ss + 1), c.(ss := c.ss + n + 1))
    case OPLUS_(_) =>
      Some(c.(ss := c.ss + 1, lev := c.lev + 1, s := c.s.(lastpos := SetLast(c.s.lastpos, c.lev + 1, c.sp))))
    case O_PLUS(n) =>
      if c.sp == LastAt(c.s.lastpos, c.lev) then Some(c.(ss := c.ss + 1, lev := c.lev - 1))
      else Second(z, c.(ss := c.ss - n + 1, s := c.s.(lastpos := SetLast(c.s.lastpos, c.lev, c.sp))),
                  c.(ss := c.ss + 1, lev := c.lev - 1))
    case OCH_(n) => InnerBranch(z, c, c.ss + 1, c.ss + n - 1)
    case OLPAREN(i) => Some(c.(ss := c.ss + 1, s := c.s.(pm := SetStart(c.s.pm, i, c.sp))))
    case ORPAREN(i) => Some(c.(ss := c.ss + 1, s := c.s.(pm := SetEnd(c.s.pm, i, c.sp))))
    case _ => None
  }

  /** The end of the next branch; no greater than esub if there is none. */
  function NextEnd(g: Guts, esub: int): int {
    if !(0 <= esub && esub + 1 < |g.strip|) || g.strip[esub].O_CH? || !g.strip[esub + 1].OOR2? then esub
    else
      var e := esub + 1 + g.strip[esub + 1].fwd;
      if 0 <= e < |g.strip| && g.strip[e].OOR2? then e - 1 else e
  }

  ghost function InnerBranch(z: Search, c: Call, ssub: int, esub: int): Option<Call>
    decreases |z.g.strip| - esub
  {
    var a := c.(ss := ssub, stopst := esub);
    if !Ends(z, a) then Some(a)
    else if !Result(z, a).0.NoMatch? || NextEnd(z.g, esub) <= esub then None
    else InnerBranch(z, c.(s := Result(z, a).1), esub + 2, NextEnd(z.g, esub))
  }

  lemma BranchesAre(z: Search, fuel: nat, c: Call, ssub: int, esub: int)
    ensures var a := c.(ss := ssub, stopst := esub);
            var r := Made(z, fuel, a);
            Branches(z.g, z.x, fuel, c.sp, z.stop, ssub, esub, c.lev, c.s) ==
            if !r.0.NoMatch? || NextEnd(z.g, esub) <= esub then r
            else Branches(z.g, z.x, fuel, c.sp, z.stop, esub + 2, NextEnd(z.g, esub), c.lev, r.1)
  {
  }

  // ----- a call ends when the one it waits for does -----

  /** What two such calls come to. */
  function Two(z: Search, fuel: nat, a: Call, b: Call): (Outcome, Store) {
    var r := Made(z, fuel, a);
    if !r.0.NoMatch? then r else Made(z, fuel, b.(s := r.1))
  }

  lemma TwoWaits(z: Search, fuel: nat, a: Call, b: Call)
    requires Second(z, a, b).Some? && Made(z, fuel, Second(z, a, b).value).0 == OutOfFuel
    ensures Two(z, fuel, a, b).0 == OutOfFuel
  {
    hide Backtrack, Made;
    if Made(z, fuel, a).0 != OutOfFuel { ResultIs(z, a, fuel); }
  }

  lemma TwoEnd(z: Search, a: Call, b: Call) returns (fuel: nat)
    requires Second(z, a, b).Some? ==> Ends(z, Second(z, a, b).value)
    ensures Two(z, fuel, a, b).0 != OutOfFuel
  {
    hide Backtrack, Made;
    fuel := EnoughFuel(z, a);
    if Second(z, a, b).Some? {
      var more := EnoughFuel(z, Second(z, a, b).value);
      fuel := Max(fuel, more);
    }
  }

  lemma {:induction false} BranchWaits(z: Search, fuel: nat, c: Call, ssub: int, esub: int)
    requires InnerBranch(z, c, ssub, esub).Some? && Made(z, fuel, InnerBranch(z, c, ssub, esub).value).0 == OutOfFuel
    ensures Branches(z.g, z.x, fuel, c.sp, z.stop, ssub, esub, c.lev, c.s).0 == OutOfFuel
    decreases |z.g.strip| - esub
  {
    hide Backtrack, Made, Branches;
    BranchesAre(z, fuel, c, ssub, esub);
    var a := c.(ss := ssub, stopst := esub);
    if Made(z, fuel, a).0 != OutOfFuel {
      ResultIs(z, a, fuel);
      BranchWaits(z, fuel, c.(s := Result(z, a).1), esub + 2, NextEnd(z.g, esub));
    }
  }

  lemma {:induction false} BranchEnds(z: Search, c: Call, ssub: int, esub: int) returns (fuel: nat)
    requires InnerBranch(z, c, ssub, esub).Some? ==> Ends(z, InnerBranch(z, c, ssub, esub).value)
    ensures forall more: nat | fuel <= more :: Branches(z.g, z.x, more, c.sp, z.stop, ssub, esub, c.lev, c.s).0 != OutOfFuel
    decreases |z.g.strip| - esub
  {
    hide Backtrack, Made, Branches;
    var a := c.(ss := ssub, stopst := esub);
    var here := EnoughFuel(z, a);
    fuel := here;
    var next := c.(s := Result(z, a).1);
    var e := NextEnd(z.g, esub);
    if Result(z, a).0.NoMatch? && e > esub {
      var there := BranchEnds(z, next, esub + 2, e);
      fuel := Max(here, there);
    }
    forall more: nat | fuel <= more
      ensures Branches(z.g, z.x, more, c.sp, z.stop, ssub, esub, c.lev, c.s).0 != OutOfFuel
    {
      BranchesAre(z, more, c, ssub, esub);
      assert Made(z, more, a) == Result(z, a);
    }
  }

  /** While the call that is waited for lacks fuel, so does the call that waits. */
  lemma Waits(z: Search, fuel: nat, c: Call)
    requires Inner(z, c).Some? && Made(z, fuel, Inner(z, c).value).0 == OutOfFuel
    ensures Made(z, fuel + 1, c).0 == OutOfFuel
  {
    hide Second, InnerBranch, Backtrack, Branches;
    var w := EasyWay(z.g, z.x, c.sp, z.stop, c.ss, c.stopst);
    var d := c.(ss := w.ss, sp := w.sp);
    MadeIs(z, fuel, c);
    WaitsAt(z, fuel, d);
  }

  lemma MadeIs(z: Search, fuel: nat, c: Call)
    ensures var w := EasyWay(z.g, z.x, c.sp, z.stop, c.ss, c.stopst);
            if w.Choose? && 0 <= w.ss < |z.g.strip|
            then Made(z, fuel + 1, c) == Chosen(z.g, z.x, fuel + 1, w.sp, z.stop, w.ss, c.stopst, c.lev, c.s)
            else Made(z, fuel + 1, c).0 != OutOfFuel
  {
  }

  lemma WaitsAt(z: Search, fuel: nat, d: Call)
    requires 0 <= d.ss < |z.g.strip| && InnerAt(z, d).Some? && Made(z, fuel, InnerAt(z, d).value).0 == OutOfFuel
    ensures Chosen(z.g, z.x, fuel + 1, d.sp, z.stop, d.ss, d.stopst, d.lev, d.s).0 == OutOfFuel
  {
    hide Second, InnerBranch, Backtrack, Branches;
    match z.g.strip[d.ss]
    case OQUEST_(n) => TwoWaits(z, fuel, d.(ss := d.ss + 1), d.(ss := d.ss + n + 1));
    case O_PLUS(n) =>
      if d.sp != LastAt(d.s.lastpos, d.lev) {
        TwoWaits(z, fuel, d.(ss := d.ss - n + 1, s := d.s.(lastpos := SetLast(d.s.lastpos, d.lev, d.sp))),
                 d.(ss := d.ss + 1, lev := d.lev - 1));
      }
    case OCH_(n) => BranchWaits(z, fuel, d, d.ss + 1, d.ss + n - 1);
    case _ =>
  }

  lemma EndsAt(z: Search, d: Call) returns (fuel: nat)
    requires 0 <= d.ss < |z.g.strip| && (InnerAt(z, d).Some? ==> Ends(z, InnerAt(z, d).value))
    ensures Chosen(z.g, z.x, fuel + 1, d.sp, z.stop, d.ss, d.stopst, d.lev, d.s).0 != OutOfFuel
  {
    hide Second, InnerBranch, Backtrack, Branches;
    fuel := 0;
    match z.g.strip[d.ss]
    case OQUEST_(n) => fuel := TwoEnd(z, d.(ss := d.ss + 1), d.(ss := d.ss + n + 1));
    case O_PLUS(n) =>
      if d.sp != LastAt(d.s.lastpos, d.lev) {
        fuel := TwoEnd(z, d.(ss := d.ss - n + 1, s := d.s.(lastpos := SetLast(d.s.lastpos, d.lev, d.sp))),
                       d.(ss := d.ss + 1, lev := d.lev - 1));
      } else {
        fuel := EnoughFuel(z, InnerAt(z, d).value);
        assert Made(z, fuel, InnerAt(z, d).value).0 != OutOfFuel;
      }
    case OCH_(n) =>
      fuel := BranchEnds(z, d, d.ss + 1, d.ss + n - 1);
      assert Branches(z.g, z.x, fuel, d.sp, z.stop, d.ss + 1, d.ss + n - 1, d.lev, d.s).0 != OutOfFuel;
    case _ =>
      if InnerAt(z, d).Some? {
        fuel := EnoughFuel(z, InnerAt(z, d).value);
        assert Made(z, fuel, InnerAt(z, d).value).0 != OutOfFuel;
      }
  }

  /** A call does not end if and only if it waits for one that does not. */
  lemma WaitsForEver(z: Search, c: Call)
    ensures !Ends(z, c) <==> Inner(z, c).Some? && !Ends(z, Inner(z, c).value)
  {
    hide Second, InnerAt, Backtrack, Chosen, EasyWay;
    var w := EasyWay(z.g, z.x, c.sp, z.stop, c.ss, c.stopst);
    if Inner(z, c).None? || Ends(z, Inner(z, c).value) {
      if w.Choose? && 0 <= w.ss < |z.g.strip| {
        var fuel := EndsAt(z, c.(ss := w.ss, sp := w.sp));
        MadeIs(z, fuel, c);
        ResultIs(z, c, fuel + 1);
      } else {
        MadeIs(z, 0, c);
        ResultIs(z, c, 1);
      }
    } else if Ends(z, c) {
      var fuel := EnoughFuel(z, c);
      assert Made(z, fuel + 1, c) == Result(z, c);
      Waits(z, fuel, c);
    }
  }

  // ----- calls that come back -----

  /** The n-th call that is waited for from `c` on is `d`. */
  ghost predicate LeadsIn(z: Search, n: nat, c: Call, d: Call)
    decreases n
  {
    if n == 0 then c == d else Inner(z, c).Some? && LeadsIn(z, n - 1, Inner(z, c).value, d)
  }

  /** In the middle of `c`, backref() comes to a call, and in the middle of that one to the same again. */
  ghost predicate Recurs(z: Search, c: Call) {
    exists d, n: nat, k: nat :: LeadsIn(z, n, c, d) && LeadsIn(z, k, d, d) && k > 0
  }

  lemma {:induction false} LeadsWaits(z: Search, n: nat, c: Call, d: Call, fuel: nat)
    requires LeadsIn(z, n, c, d) && Made(z, fuel, d).0 == OutOfFuel
    ensures Made(z, fuel + n, c).0 == OutOfFuel
    decreases n
  {
    hide Made, Inner;
    if n > 0 {
      LeadsWaits(z, n - 1, Inner(z, c).value, d, fuel);
      Waits(z, fuel + n - 1, c);
    }
  }

  lemma {:induction false} NoFuel(z: Search, d: Call, k: nat, m: nat) returns (fuel: nat)
    requires LeadsIn(z, k, d, d) && k > 0
    ensures fuel >= m && Made(z, fuel, d).0 == OutOfFuel
    decreases m
  {
    if m == 0 { fuel := 0; }
    else {
      var f := NoFuel(z, d, k, m - 1);
      LeadsWaits(z, k, d, d, f);
      fuel := f + k;
    }
  }

  lemma RecursNeverEnds(z: Search, c: Call)
    requires Recurs(z, c)
    ensures !Ends(z, c)
  {
    hide Made;
    var d, n: nat, k: nat :| LeadsIn(z, n, c, d) && LeadsIn(z, k, d, d) && k > 0;
    if Ends(z, c) {
      var enough := EnoughFuel(z, c);
      var fuel := NoFuel(z, d, k, enough);
      assert Made(z, fuel + n, c) == Result(z, c);
      LeadsWaits(z, n, c, d, fuel);
    }
  }
}
