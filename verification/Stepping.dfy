/** One step of the simulation: a single forward scan of the strip, which goes back only to
    reconsider the body of a loop that has just been entered again. */
module Stepping {
  import opened Strip
  import opened StateVectors

  // ----- the scan on plain sets -----

  /** Where the empty moves of p lead. */
  function Targets(g: Guts, p: int): set<int> {
    if !(0 <= p < |g.strip|) then {}
    else
      var op := g.strip[p];
      if op.O_PLUS? then {p + 1, p - op.back}
      else if op.OQUEST_? || op.OCH_? then {p + 1, p + op.fwd}
      else if op.OOR1? then {ChoiceEnd(g, p + 1)}
      else if op.OOR2? then
        if p + op.fwd < |g.strip| && !g.strip[p + op.fwd].O_CH? then {p + 1, p + op.fwd} else {p + 1}
      else if IsConsuming(op) || op.OEND? then {}
      else {p + 1}
  }

  lemma TargetsAreEmptyEdges(g: Guts, p: int, q: int)
    ensures EmptyEdge(g, p, q) <==> q in Targets(g, p)
  {
  }

  /** What the scan adds at pc, from the states `b` before the character and `a` after it. */
  ghost function Gains(g: Guts, ch: Code, b: set<int>, a: set<int>, pc: int): set<int>
    requires 0 <= pc < |g.strip|
  {
    (if pc in b && Consumes(g, g.strip[pc], ch) then {pc + 1} else {}) +
    (if pc in a then Targets(g, pc) else {})
  }

  ghost predicate DoneAt(g: Guts, ch: Code, b: set<int>, a: set<int>, p: int)
    requires 0 <= p < |g.strip|
  {
    Gains(g, ch, b, a, p) <= a
  }

  /** The scan has nothing left to add below pc. */
  ghost predicate DoneBelow(g: Guts, lo: int, ch: Code, b: set<int>, a: set<int>, pc: int)
    requires 0 <= lo && pc <= |g.strip|
  {
    forall p | lo <= p < pc :: DoneAt(g, ch, b, a, p)
  }

  /** After pc is handled nothing is left to add below `upto`, if what was gained lies at or
      above `upto` or was there already. */
  lemma ScanAdvances(g: Guts, lo: int, ch: Code, b: set<int>, a: set<int>, b': set<int>, a': set<int>, pc: int, upto: int)
    requires 0 <= lo <= upto <= pc + 1 <= |g.strip| && 0 <= pc
    requires DoneBelow(g, lo, ch, b, a, pc)
    requires a' == a + Gains(g, ch, b, a, pc)
    requires b' == b || (b == a && b' == a')
    requires forall q | q in Gains(g, ch, b, a, pc) :: q in a || q >= upto
    ensures DoneBelow(g, lo, ch, b', a', upto)
  {
    forall p | lo <= p < upto ensures DoneAt(g, ch, b', a', p) {
      if p < pc { assert DoneAt(g, ch, b, a, p); }
    }
  }

  /** What is gained from inside the closure is inside it. */
  lemma GainsInside(g: Guts, lo: int, hi: int, ch: Code, b: set<int>, a: set<int>, t: set<int>, with: Code, pc: int)
    requires 0 <= lo <= pc < hi <= |g.strip| && a <= t && Closed(g, lo, hi, with, t)
    requires (with == ch && b == a) || Shift(g, lo, hi, ch, b) <= t
    ensures Gains(g, ch, b, a, pc) <= t
  {
    forall q | q in Gains(g, ch, b, a, pc) ensures q in t {
      if pc in a && q in Targets(g, pc) {
        TargetsAreEmptyEdges(g, pc, q);
        assert ClosedAt(g, with, t, pc);
      } else if b == a && with == ch {
        assert ClosedAt(g, with, t, pc);
      } else {
        assert q in Shift(g, lo, hi, ch, b);
      }
    }
  }

  lemma DoneIsClosed(g: Guts, lo: int, hi: int, ch: Code, b: set<int>, a: set<int>, with: Code)
    requires 0 <= lo <= hi <= |g.strip| && DoneBelow(g, lo, ch, b, a, hi)
    requires with == NOTHING || (with == ch && b == a)
    ensures Closed(g, lo, hi, with, a) && Shift(g, lo, hi, ch, b) <= a
  {
    forall p | p in a && lo <= p < hi ensures ClosedAt(g, with, a, p) {
      assert DoneAt(g, ch, b, a, p);
      forall q | EmptyEdge(g, p, q) ensures q in a { TargetsAreEmptyEdges(g, p, q); }
    }
    forall p | p in b && lo <= p < hi && Consumes(g, g.strip[p], ch) ensures p + 1 in a {
      assert DoneAt(g, ch, b, a, p);
    }
  }

  // ----- the cases of the scan -----

  method ScanConsuming(g: Guts, bef: States, ch: Code, aft: States, pc: nat, here: OneState)
    requires bef.Valid() && aft.Valid() && aft.Beside(bef)
    requires pc + 1 < |g.strip| == aft.nstates && here == Init(aft.large, pc) && IsConsuming(g.strip[pc])
    modifies aft, aft.bytes
    ensures aft.Valid()
    ensures aft.Elems() == old(aft.Elems() + Gains(g, ch, bef.Elems(), aft.Elems(), pc))
  {
    var s := g.strip[pc];
    var through := false;
    match s {
      case OCHAR(c) => through := ch == Char(c);
      case OBOL => through := ch == BOL || ch == BOLEOL;
      case OEOL => through := ch == EOL || ch == BOLEOL;
      case OBOW => through := ch == BOW;
      case OEOW => through := ch == EOW;
      case OANY => through := ch.Char?;
      case OANYOF(n) => through := ch.Char? && ChIn(g, n, ch.c);
    }
    if through { aft.Fwd(bef, here, 1, pc); }
  }

  /** The end of a loop leads out of it and back to its front.  `again`: the front is newly reached. */
  method ScanLoopEnd(g: Guts, aft: States, pc: nat, here: OneState) returns (again: bool)
    requires aft.Valid()
    requires pc + 1 < |g.strip| == aft.nstates && here == Init(aft.large, pc)
    requires g.strip[pc].O_PLUS? && 1 <= g.strip[pc].back <= pc
    modifies aft, aft.bytes
    ensures aft.Valid()
    ensures aft.Elems() == old(aft.Elems()) + old(if pc in aft.Elems() then {pc + 1, pc - g.strip[pc].back} else {})
    ensures again <==> old(pc in aft.Elems() && pc - g.strip[pc].back !in aft.Elems())
  {
    var n := g.strip[pc].back;
    aft.Fwd(aft, here, 1, pc);
    var i := aft.IsSetBack(here, n, pc);
    aft.Back(aft, here, n, pc);
    var now := aft.IsSetBack(here, n, pc);
    again := !i && now;
  }

  /** The end of a branch leads to the end of its choice. */
  method ScanBranchEnd(g: Guts, aft: States, pc: nat, here: OneState, ghost hi: nat)
    requires aft.Valid()
    requires pc + 1 < hi < |g.strip| == aft.nstates && here == Init(aft.large, pc)
    requires ChoiceEnd(g, pc + 1) < hi && g.strip[ChoiceEnd(g, pc + 1)].O_CH?
    modifies aft, aft.bytes
    ensures aft.Valid()
    ensures aft.Elems() == old(aft.Elems()) + old(if pc in aft.Elems() then {ChoiceEnd(g, pc + 1)} else {})
  {
    var here? := aft.IsStateIn(here, pc);
    if here? {
      var look := 1;
      while !g.strip[pc + look].O_CH?
        invariant 1 <= look && pc + look <= ChoiceEnd(g, pc + 1)
        invariant ChoiceEnd(g, pc + look) == ChoiceEnd(g, pc + 1)
        decreases hi - look
      {
        look := look + g.strip[pc + look].fwd;
      }
      aft.Fwd(aft, here, look, pc);
    }
  }

  /** An operator with two moves ahead. */
  method BothForward(aft: States, pc: nat, here: OneState, n: nat)
    requires aft.Valid() && pc + 1 < aft.nstates && pc + n < aft.nstates && here == Init(aft.large, pc)
    modifies aft, aft.bytes
    ensures aft.Valid()
    ensures aft.Elems() == old(aft.Elems()) + old(if pc in aft.Elems() then {pc + 1, pc + n} else {})
  {
    aft.Fwd(aft, here, 1, pc);
    aft.Fwd(aft, here, n, pc);
  }

  method ScanEmpty(g: Guts, aft: States, pc: nat, here: OneState, ghost lo: nat, ghost hi: nat)
    requires aft.Valid()
    requires 1 <= lo <= pc < hi < |g.strip| == aft.nstates && OpOk(g, lo, hi, pc)
    requires here == Init(aft.large, pc)
    requires !IsConsuming(g.strip[pc]) && !g.strip[pc].O_PLUS?
    modifies aft, aft.bytes
    ensures aft.Valid()
    ensures aft.Elems() == old(aft.Elems()) + old(if pc in aft.Elems() then Targets(g, pc) else {})
  {
    var s := g.strip[pc];
    if s.OQUEST_? || s.OCH_? {
      assert EmptyEdge(g, pc, pc + s.fwd);
      BothForward(aft, pc, here, s.fwd);
    } else if s.OOR1? {
      assert EmptyEdge(g, pc, ChoiceEnd(g, pc + 1));
      ScanBranchEnd(g, aft, pc, here, hi);
    } else if s.OOR2? && !g.strip[pc + s.fwd].O_CH? {
      BothForward(aft, pc, here, s.fwd);
    } else {
      aft.Fwd(aft, here, 1, pc);
    }
  }

  // ----- the scan -----

  /** What a step makes of the states `a` already known after the character, from the states
      `b` before it.  `same` says that the two vectors are one, as they are in the calls of the
      large build that pass a vector twice. */
  ghost function Stepped(g: Guts, lo: int, hi: int, same: bool, ch: Code, b: set<int>, a: set<int>): set<int>
    requires 0 <= lo <= hi <= |g.strip|
  {
    if same then Close(g, lo, hi, ch, a) else Close(g, lo, hi, NOTHING, a + Shift(g, lo, hi, ch, b))
  }

  /** The scan is under way: from `a0` it has come to `a`, with nothing left to add below pc. */
  ghost predicate Scanning(g: Guts, lo: int, hi: int, same: bool, ch: Code, b0: set<int>, a0: set<int>, b: set<int>, a: set<int>, pc: int) {
    && Scannable(g, lo, hi) && Inside(lo, hi, a0) && lo <= pc <= hi
    && a0 <= a <= Stepped(g, lo, hi, same, ch, b0, a0)
    && b == (if same then a else b0)
    && DoneBelow(g, lo, ch, b, a, pc)
  }

  lemma ScanStarts(g: Guts, lo: int, hi: int, same: bool, ch: Code, b: set<int>, a: set<int>)
    requires Scannable(g, lo, hi) && Inside(lo, hi, a) && (same ==> b == a)
    ensures Scanning(g, lo, hi, same, ch, b, a, b, a, lo)
  {
    if same { CloseIsClosed(g, lo, hi, ch, a); } else { CloseIsClosed(g, lo, hi, NOTHING, a + Shift(g, lo, hi, ch, b)); }
  }

  lemma ScanGoesOn(g: Guts, lo: int, hi: int, same: bool, ch: Code, b0: set<int>, a0: set<int>,
                   b: set<int>, a: set<int>, pc: int, b': set<int>, a': set<int>, again: bool)
    requires Scanning(g, lo, hi, same, ch, b0, a0, b, a, pc) && pc < hi
    requires a' == a + Gains(g, ch, b, a, pc) && b' == if same then a' else b0
    requires again <==> g.strip[pc].O_PLUS? && pc in a && pc - g.strip[pc].back !in a
    ensures again ==> lo <= pc - g.strip[pc].back <= pc && a < a'
    ensures Scanning(g, lo, hi, same, ch, b0, a0, b', a', if again then pc - g.strip[pc].back else pc + 1)
  {
    assert OpOk(g, lo, hi, pc);
    if same {
      CloseIsClosed(g, lo, hi, ch, a0);
      GainsInside(g, lo, hi, ch, b, a, Close(g, lo, hi, ch, a0), ch, pc);
    } else {
      CloseIsClosed(g, lo, hi, NOTHING, a0 + Shift(g, lo, hi, ch, b0));
      GainsInside(g, lo, hi, ch, b, a, Close(g, lo, hi, NOTHING, a0 + Shift(g, lo, hi, ch, b0)), NOTHING, pc);
    }
    GainsForward(g, lo, hi, ch, b, a, pc);
    ScanAdvances(g, lo, ch, b, a, b', a', pc, if again then pc - g.strip[pc].back else pc + 1);
  }

  /** Only an O_PLUS gains a state at or below itself. */
  lemma GainsForward(g: Guts, lo: int, hi: int, ch: Code, b: set<int>, a: set<int>, pc: int)
    requires 1 <= lo <= pc < hi < |g.strip| && OpOk(g, lo, hi, pc)
    ensures forall q | q in Gains(g, ch, b, a, pc) ::
              q > pc || q in a || (g.strip[pc].O_PLUS? && pc in a && q == pc - g.strip[pc].back)
    ensures g.strip[pc].O_PLUS? ==> lo <= pc - g.strip[pc].back < pc
    ensures g.strip[pc].O_PLUS? && pc in a ==> pc - g.strip[pc].back in Gains(g, ch, b, a, pc)
  {
    if g.strip[pc].O_PLUS? { assert EmptyEdge(g, pc, pc - g.strip[pc].back); }
    if g.strip[pc].OQUEST_? || g.strip[pc].OCH_? { assert EmptyEdge(g, pc, pc + g.strip[pc].fwd); }
  }

  lemma ScanEnds(g: Guts, lo: int, hi: int, same: bool, ch: Code, b0: set<int>, a0: set<int>, b: set<int>, a: set<int>)
    requires Scanning(g, lo, hi, same, ch, b0, a0, b, a, hi)
    ensures a == Stepped(g, lo, hi, same, ch, b0, a0)
  {
    if same {
      DoneIsClosed(g, lo, hi, ch, b, a, ch);
      CloseUnique(g, lo, hi, ch, a0, a);
    } else {
      DoneIsClosed(g, lo, hi, ch, b, a, NOTHING);
      CloseUnique(g, lo, hi, NOTHING, a0 + Shift(g, lo, hi, ch, b0), a);
    }
  }

  /** The switch of the scan loop. */
  method ScanOne(g: Guts, bef: States, ch: Code, aft: States, pc: nat, here: OneState, ghost lo: nat, ghost hi: nat)
    returns (again: bool)
    requires bef.Valid() && aft.Valid() && aft.Beside(bef)
    requires 1 <= lo <= pc < hi < |g.strip| == aft.nstates && OpOk(g, lo, hi, pc)
    requires here == Init(aft.large, pc)
    modifies aft, aft.bytes
    ensures aft.Valid()
    ensures aft.Elems() == old(aft.Elems() + Gains(g, ch, bef.Elems(), aft.Elems(), pc))
    ensures again <==> g.strip[pc].O_PLUS? && old(pc in aft.Elems() && pc - g.strip[pc].back !in aft.Elems())
  {
    again := false;
    if IsConsuming(g.strip[pc]) {
      ScanConsuming(g, bef, ch, aft, pc, here);
    } else if g.strip[pc].O_PLUS? {
      assert EmptyEdge(g, pc, pc - g.strip[pc].back);
      again := ScanLoopEnd(g, aft, pc, here);
    } else {
      ScanEmpty(g, aft, pc, here, lo, hi);
    }
  }

  method Step(g: Guts, start: nat, stop: nat, bef: States, ch: Code, aft: States)
    requires Scannable(g, start, stop) && aft.nstates == |g.strip|
    requires bef.Valid() && aft.Valid() && aft.Beside(bef)
    requires Inside(start, stop, aft.Elems())
    modifies aft, aft.bytes
    ensures aft.Valid()
    ensures aft.Elems() == old(Stepped(g, start, stop, bef == aft, ch, bef.Elems(), aft.Elems()))
  {
    hide OpOk, Close, Closed, Shift, Gains, DoneBelow;
    ghost var same, b0, a0 := bef == aft, bef.Elems(), aft.Elems();
    ScanStarts(g, start, stop, same, ch, b0, a0);
    var pc := start;
    var here := Init(aft.large, pc);
    while pc != stop
      invariant start <= pc <= stop && here == Init(aft.large, pc)
      invariant bef.Valid() && aft.Valid()
      invariant Scanning(g, start, stop, same, ch, b0, a0, bef.Elems(), aft.Elems(), pc)
      decreases Stepped(g, start, stop, same, ch, b0, a0) - aft.Elems(), stop - pc
    {
      ghost var b, a := bef.Elems(), aft.Elems();
      assert OpOk(g, start, stop, pc);
      var again := ScanOne(g, bef, ch, aft, pc, here, start, stop);
      ScanGoesOn(g, start, stop, same, ch, b0, a0, b, a, pc, bef.Elems(), aft.Elems(), again);
      if again {
        pc := pc - (g.strip[pc].back + 1);
        here := Init(aft.large, pc);
      }
      IncInit(aft.large, pc);
      pc := pc + 1;
      here := Inc(here);
    }
    ScanEnds(g, start, stop, same, ch, b0, a0, bef.Elems(), aft.Elems());
  }
}
