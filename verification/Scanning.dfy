/** slow() and fast(): the simulation run along the text, from one start or from all of them. */
module Scanning {
  import opened Strip
  import opened Regex
  import opened Running
  import opened Words
  import opened StateVectors
  import opened Stepping
  import opened Boundary
  import opened Layout

  /** A character of the text, or OUT where there is none. */
  datatype CharOrOut = Out | In(c: char)

  predicate IsWord(c: char) {
    'a' <= c <= 'z' || 'A' <= c <= 'Z' || '0' <= c <= '9' || c == '_'
  }

  /** What one search works on: the expression, the text, the vectors of states, and `coldp`. */
  class Match {
    const g: Guts
    const x: Subject
    const st: States
    const start: States
    const tmp: States
    const empty: States
    var coldp: int

    constructor (large: bool, g: Guts, x: Subject)
      requires x.Valid() && (!large ==> |g.strip| <= WORD_BITS)
      ensures Valid() && fresh(Repr()) && this.g == g && this.x == x && st.large == large
    {
      this.g := g;
      this.x := x;
      this.coldp := -1;
      st := new States(large, |g.strip|);
      start := new States(large, |g.strip|);
      tmp := new States(large, |g.strip|);
      empty := new States(large, |g.strip|);
    }

    /** The memory that scanning changes. */
    ghost function Repr(): set<object> {
      {this, st, st.bytes, start, start.bytes, tmp, tmp.bytes}
    }

    ghost predicate Valid()
      reads this, st, start, tmp, empty, empty.bytes
    {
      && x.Valid()
      && st.Valid() && start.Valid() && tmp.Valid() && empty.Valid()
      && st.nstates == |g.strip|
      && Apart(st, start) && Apart(st, tmp) && Apart(st, empty)
      && Apart(start, tmp) && Apart(start, empty) && Apart(tmp, empty)
      && empty.Elems() == {}
    }

    /** The rounds at line boundaries suffice in this build. */
    ghost predicate Exact() {
      EnoughRounds(st.large, g)
    }

    ghost predicate Apart(a: States, b: States) {
      a != b && a.bytes != b.bytes && a.Beside(b)
    }

    ghost function Seg(lo: int, hi: int): Segment {
      Segment(g, x, lo, hi, st.large)
    }
  }

  // ----- word boundaries: no word anchors, so nothing moves on them -----

  lemma WordStepIdle(m: Segment, re: Re, same: bool, ch: Code, s: set<int>)
    requires m.Codes(re) && m.Valid() && (ch == BOW || ch == EOW)
    requires Inside(m.lo, m.hi, s) && Closed(m.g, m.lo, m.hi, NOTHING, s)
    ensures Stepped(m.g, m.lo, m.hi, same, ch, s, s) == s
  {
    forall q | q in s && m.lo <= q < m.hi ensures ClosedAt(m.g, ch, s, q) && !Consumes(m.g, m.g.strip[q], ch) {
      NoWordOps(m.g.strip, m.lo, re, q);
      assert ClosedAt(m.g, NOTHING, s, q);
    }
    assert Shift(m.g, m.lo, m.hi, ch, s) == {};
    assert s + {} == s;
    CloseIsClosed(m.g, m.lo, m.hi, if same then ch else NOTHING, s);
    CloseIsLeast(m.g, m.lo, m.hi, if same then ch else NOTHING, s, s);
  }

  // ----- the lines that fast() and slow() share -----

  function CharBefore(x: Subject, p: int): CharOrOut
    requires x.Valid() && x.begin <= p <= x.end
  {
    if p == x.begin then Out else In(x.text[p - 1])
  }

  function CharAfter(x: Subject, p: int): CharOrOut
    requires x.Valid() && x.begin <= p <= x.end
  {
    if p == x.end then Out else In(x.text[p])
  }

  /** The kind of line boundary at p, and the number of rounds for it. */
  method LineBoundary(m: Match, lastc: CharOrOut, c: CharOrOut, ghost p: int) returns (flagch: Code, i: nat)
    requires m.x.Valid() && m.x.begin <= p <= m.x.end
    requires lastc == CharBefore(m.x, p) && c == CharAfter(m.x, p)
    ensures flagch == FlagAt(m.g, m.x, p) && i == Rounds(m.g, flagch)
  {
    flagch := NOTHING;
    i := 0;
    if (lastc == In('\n') && m.g.newline) || (lastc == Out && !m.x.notbol) {
      flagch := BOL;
      i := m.g.nbol;
    }
    if (c == In('\n') && m.g.newline) || (c == Out && !m.x.noteol) {
      flagch := if flagch == BOL then BOLEOL else EOL;
      i := i + m.g.neol;
    }
  }

  /** Cross the line and word boundaries at p. */
  method CrossBoundaries(m: Match, startst: nat, stopst: nat, lastc: CharOrOut, c: CharOrOut, ghost p: int, ghost re: Re)
    requires m.Valid() && m.Seg(startst, stopst).Codes(re) && m.x.begin <= p <= m.x.end
    requires lastc == CharBefore(m.x, p) && c == CharAfter(m.x, p)
    requires Inside(startst, stopst, m.st.Elems())
    requires Scannable(m.g, startst, stopst) && Closed(m.g, startst, stopst, NOTHING, m.st.Elems())
    modifies m.st, m.st.bytes
    ensures m.Valid()
    ensures m.st.Elems() == m.Seg(startst, stopst).CrossAt(p, old(m.st.Elems()))
  {
    hide Scannable, Close, Closed, Rounded, EnoughRounds, Holds, Stepped;
    var flagch, i := LineBoundary(m, lastc, c, p);
    CloseIsClosed(m.g, startst, stopst, NOTHING, m.st.Elems());
    CloseUnique(m.g, startst, stopst, NOTHING, m.st.Elems(), m.st.Elems());
    RoundedBasics(m.g, startst, stopst, m.st.large, flagch, m.st.Elems(), i);
    StepOnBoundary(m.g, startst, stopst, flagch, i, m.st);

    if (flagch == BOL || (lastc != Out && !IsWord(lastc.c))) && c != Out && IsWord(c.c) {
      flagch := BOW;
    }
    if lastc != Out && IsWord(lastc.c) && (flagch == EOL || (c != Out && !IsWord(c.c))) {
      flagch := EOW;
    }
    if flagch == BOW || flagch == EOW {
      WordStepIdle(m.Seg(startst, stopst), re, m.st.large, flagch, m.st.Elems());
      CallStep(m.g, startst, stopst, m.st, flagch, m.st);
    }
  }
}
