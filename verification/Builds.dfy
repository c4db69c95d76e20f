/** The small build and the large one: where the rounds at line boundaries suffice in both, they answer
    alike. */
module Builds {
  import opened Strip
  import opened Regex
  import opened Running
  import opened Words
  import opened Boundary
  import opened SlowScan
  import opened FastScan
  import opened Leftmost
  import opened Captures
  import opened Backtracking
  import opened Matching

  /** The same segment in the two builds. */
  ghost predicate Twins(m: Segment, w: Segment) {
    w == m.(large := w.large) && m.Valid() && m.Exact() && w.Exact()
  }

  lemma CrossAlike(m: Segment, w: Segment, p: int, s: set<int>)
    requires Twins(m, w) && w.Valid() && Inside(m.lo, m.hi, s)
    ensures m.CrossAt(p, s) == w.CrossAt(p, s)
  {
    hide Scannable, EnoughRounds, Close, Closed, Segment.CrossAt;
    CrossAtBasics(m, p, s);
    CrossAtBasics(w, p, s);
  }

  lemma TookAlike(m: Segment, w: Segment, p: int, s: set<int>)
    requires Twins(m, w) && w.Valid()
    ensures m.Took(p, s) == w.Took(p, s) && Inside(m.lo, m.hi, m.Took(p, s))
  {
  }

  lemma {:induction false} LiveAlike(m: Segment, w: Segment, from: int, p: int)
    requires Twins(m, w) && w.Valid()
    ensures m.Live(from, p) == w.Live(from, p)
    decreases p - from
  {
    hide Scannable, EnoughRounds, Segment.CrossAt, Segment.Took;
    if p >= from {
      if p > from { LiveAlike(m, w, from, p - 1); }
      LoInside(m);
      TookAlike(m, w, p - 1, m.Live(from, p - 1));
      CrossAlike(m, w, p, if p == from then {m.lo} else m.Took(p - 1, m.Live(from, p - 1)));
    }
  }

  lemma {:induction false} SweepAlike(m: Segment, w: Segment, from: int, p: int)
    requires Twins(m, w) && w.Valid()
    ensures m.Sweep(from, p) == w.Sweep(from, p)
    decreases p - from
  {
    hide Scannable, EnoughRounds, Segment.CrossAt, Segment.Took;
    if p >= from {
      SweepAlike(m, w, from, p - 1);
      LoInside(m);
      TookAlike(m, w, p - 1, m.Sweep(from, p - 1));
      CrossAlike(m, w, p, {m.lo} + m.Took(p - 1, m.Sweep(from, p - 1)));
    }
  }

  lemma AcceptAlike(m: Segment, w: Segment)
    requires Twins(m, w) && w.Valid()
    ensures forall i, p :: Accepts(m, i, p) <==> Accepts(w, i, p)
  {
    hide Scannable, EnoughRounds, Segment.Live;
    forall i, p ensures Accepts(m, i, p) <==> Accepts(w, i, p) { LiveAlike(m, w, i, p); }
  }

  lemma {:induction false} LongestAlike(m: Segment, w: Segment, i: int, limit: int)
    requires Twins(m, w) && w.Valid()
    ensures Longest(m, i, limit) == Longest(w, i, limit)
    decreases limit - i
  {
    AcceptAlike(m, w);
    hide Accepts, Scannable, EnoughRounds;
    if limit >= i { LongestAlike(m, w, i, limit - 1); }
  }

  lemma {:induction false} FirstEndAlike(m: Segment, w: Segment, from: int, p: int, stop: int)
    requires Twins(m, w) && w.Valid()
    ensures FirstEnd(m, from, p, stop) == FirstEnd(w, from, p, stop)
    decreases stop - p
  {
    AcceptAlike(m, w);
    hide Accepts, Scannable, EnoughRounds;
    if p <= stop { FirstEndAlike(m, w, from, p + 1, stop); }
  }

  lemma {:induction false} FirstStartAlike(m: Segment, w: Segment, i: int, stop: int)
    requires Twins(m, w) && w.Valid()
    ensures FirstStart(m, i, stop) == FirstStart(w, i, stop)
    decreases stop - i
  {
    hide Longest, Scannable, EnoughRounds;
    if i <= stop {
      LongestAlike(m, w, i, stop);
      FirstStartAlike(m, w, i + 1, stop);
    }
  }

  lemma {:induction false} LastColdAlike(m: Segment, w: Segment, from: int, p: int)
    requires Twins(m, w) && w.Valid()
    ensures LastCold(m, from, p) == LastCold(w, from, p)
    decreases p - from
  {
    hide Scannable, EnoughRounds, Close, Segment.Sweep, Segment.Took;
    if p > from {
      SweepAlike(m, w, from, p - 1);
      TookAlike(m, w, p - 1, m.Sweep(from, p - 1));
      LastColdAlike(m, w, from, p - 1);
    }
  }

  lemma {:induction false} ShorterAlike(m: Segment, w: Segment, fuel: nat, so: int, eo: int, s: Store)
    requires Twins(m, w) && w.Valid()
    ensures Shorter(m, fuel, so, eo, s) == Shorter(w, fuel, so, eo, s)
    decreases eo - so
  {
    hide Longest, Backtrack, Scannable, EnoughRounds;
    LongestAlike(m, w, so, eo - 1);
    LongestIsGreatest(m, so, eo - 1);
    var r := Backtrack(m.g, m.x, fuel, so, eo, m.lo, m.hi, 0, s);
    if r.0 == NoMatch && eo > so && Longest(m, so, eo - 1).Some? {
      ShorterAlike(m, w, fuel, so, Longest(m, so, eo - 1).value, r.1);
    }
  }

  /** Where the search from `start` finds a match. */
  lemma FoundAlike(m: Segment, w: Segment, start: int)
    requires Twins(m, w) && w.Valid()
    ensures var e := FirstEnd(m, start, start, m.x.end);
            && FirstEnd(w, start, start, w.x.end) == e
            && (e.Some? ==>
                  var so := FirstStart(m, LastCold(m, start, e.value), m.x.end);
                  && FirstStart(w, LastCold(w, start, e.value), w.x.end) == so
                  && (so.Some? ==> Longest(w, so.value, w.x.end) == Longest(m, so.value, m.x.end)))
  {
    hide FirstEnd, FirstStart, LastCold, Longest, Scannable, EnoughRounds;
    var stop := m.x.end;
    FirstEndAlike(m, w, start, start, stop);
    if FirstEnd(m, start, start, stop).Some? {
      LastColdAlike(m, w, start, FirstEnd(m, start, start, stop).value);
      var c := LastCold(m, start, FirstEnd(m, start, start, stop).value);
      FirstStartAlike(m, w, c, stop);
      if FirstStart(m, c, stop).Some? { LongestAlike(m, w, FirstStart(m, c, stop).value, stop); }
    }
  }

  lemma {:induction false} RetriedAlike(m: Segment, w: Segment, fuel: nat, start: int, s: Store)
    requires Twins(m, w) && w.Valid()
    ensures Retried(m, fuel, start, s) == Retried(w, fuel, start, s)
    decreases m.x.end - start
  {
    hide FirstEnd, FirstStart, LastCold, Longest, Shorter, Scannable, EnoughRounds;
    FoundAlike(m, w, start);
    var e := FirstEnd(m, start, start, m.x.end);
    if e.Some? {
      var so := FirstStart(m, LastCold(m, start, e.value), m.x.end);
      if so.Some? && start <= so.value && Longest(m, so.value, m.x.end).Some? {
        var eo := Longest(m, so.value, m.x.end).value;
        ShorterAlike(m, w, fuel, so.value, eo, s);
        if so.value < m.x.end { RetriedAlike(m, w, fuel, so.value + 1, Shorter(m, fuel, so.value, eo, s).2); }
      }
    }
  }

  /** So they answer alike, whatever the text. */
  lemma AnswersAlike(m: Segment, w: Segment, re: Re, fuel: nat, nmatch: nat, given: seq<RegMatch>)
    requires Twins(m, w) && w.Valid() && nmatch <= |given|
    ensures Answer(m, re, fuel, nmatch, given) == Answer(w, re, fuel, nmatch, given)
  {
    hide FirstEnd, FirstStart, LastCold, Longest, Retried, Dissected, Report, Blank, Scannable, EnoughRounds;
    RetriedAlike(m, w, fuel, m.x.begin, Blank(m.g));
    FoundAlike(m, w, m.x.begin);
  }

  /** The two builds, side by side: they answer alike, whatever the text. */
  method BothBuilds(g: Guts, str: string, nmatch: nat, given: seq<RegMatch>, eflags: Eflags, fuel: nat, ghost re: Re)
    returns (small: (Status, seq<RegMatch>), large: (Status, seq<RegMatch>))
    requires Compiled(g, re) && |g.strip| <= WORD_BITS && EnoughRounds(false, g) && EnoughRounds(true, g)
    requires nmatch <= |given| && RangeGiven(str, eflags, given)
    requires MustHold(g, SubjectOf(str, eflags, given), re)
    ensures small == large
  {
    hide Compiled, MustHold, Answer, EnoughRounds;
    var a := new RegMatch[|given|](i requires 0 <= i < |given| => given[i]);
    var b := new RegMatch[|given|](i requires 0 <= i < |given| => given[i]);
    assert a[..] == given && b[..] == given;
    var s := Matcher(g, str, nmatch, a, eflags, false, fuel, re);
    var t := Matcher(g, str, nmatch, b, eflags, true, fuel, re);
    small, large := (s, a[..]), (t, b[..]);
    var x := SubjectOf(str, eflags, given);
    if x.begin <= x.end {
      var m := Segment(g, x, g.firststate + 1, g.laststate, false);
      AnswersAlike(m, m.(large := true), re, fuel, if g.nosub then 0 else nmatch, given);
    }
  }
}
