/** matcher(): prescreening, the search for a match, and the report; and regexec() on top of it. */
module Matching {
  import opened Strip
  import opened Regex
  import opened Running
  import opened Words
  import opened Boundary
  import opened Options
  import opened Scanning
  import opened SlowScan
  import opened FastScan
  import opened Leftmost
  import opened Captures
  import opened Dissection
  import opened Backtracking
  import opened Layout
  import opened BackrefInPlace

  datatype Eflags = Eflags(notbol: bool, noteol: bool, startend: bool)

  /** `Stuck` is where an assertion that is compiled out would fail: a false alarm at the very
      end of the text.  `Unknown` is where the fuel of the backtracker ran out. */
  datatype Status = Success | REG_NOMATCH | REG_INVARG | Stuck | Unknown

  /** The expression `re` as regcomp() compiles it. */
  ghost predicate Compiled(g: Guts, re: Re) {
    && g.laststate == g.firststate + 1 + Len(re) < |g.strip|
    && Holds(g.strip, g.firststate + 1, re)
    && Depth(g.strip, g.firststate + 1) == 0
    && WellCompiled(g, g.nsub + 1, g.nplus)
    && (!g.backrefs ==> Fits(re, g.nsub + 1))
  }

  /** Every match of `re` contains the `must` string. */
  ghost predicate MustHold(g: Guts, x: Subject, re: Re) {
    forall i, j | x.begin <= i <= j <= x.end && Matches(g, x, re, i, j) :: HasMust(g, x, i, j)
  }

  ghost predicate HasMust(g: Guts, x: Subject, i: int, j: int) {
    exists d :: i <= d && d + |g.must| <= j && MustAt(g, x, d)
  }

  predicate MustAt(g: Guts, x: Subject, d: int) {
    0 <= d && d + |g.must| <= |x.text| && x.text[d..d + |g.must|] == g.must
  }

  // ----- what is reported -----

  /** The table that the caller gets. */
  function Report(g: Guts, nmatch: nat, given: seq<RegMatch>, so: int, eo: int, pm: seq<RegMatch>): (r: seq<RegMatch>)
    requires nmatch <= |given| && |pm| == g.nsub + 1
    ensures |r| == |given|
  {
    seq(|given|, i requires 0 <= i < |given| =>
      if i >= nmatch then given[i]
      else if i == 0 then RegMatch(so, eo)
      else if i <= g.nsub then pm[i] else Unset)
  }

  /** What matcher() has when its loop ends. */
  datatype Result = Result(status: Status, so: int, eo: int, store: Store)

  /** backref() on the match that ends at `eo`, and then on shorter and shorter ones. */
  ghost function Shorter(m: Segment, fuel: nat, so: int, eo: int, s: Store): (Outcome, int, Store)
    decreases eo - so
  {
    var r := Backtrack(m.g, m.x, fuel, so, eo, m.lo, m.hi, 0, s);
    if r.0 != NoMatch || eo <= so then (r.0, eo, r.1)
    else
      var e := Longest(m, so, eo - 1);
      LongestIsGreatest(m, so, eo - 1);
      if e.None? then (NoMatch, eo, r.1) else Shorter(m, fuel, so, e.value, r.1)
  }

  /** The loop of matcher() for an expression with back references. */
  ghost function Retried(m: Segment, fuel: nat, start: int, s: Store): Result
    requires m.Valid()
    decreases m.x.end - start
  {
    var stop := m.x.end;
    var e := FirstEnd(m, start, start, stop);
    if e.None? then Result(REG_NOMATCH, start, start, s)
    else
      var so := FirstStart(m, LastCold(m, start, e.value), stop);
      if so.None? || so.value < start then Result(REG_NOMATCH, start, start, s)
      else
        var eo := Longest(m, so.value, stop);
        if eo.None? then Result(REG_NOMATCH, start, start, s)
        else
          var t := Shorter(m, fuel, so.value, eo.value, s);
          if t.0.Done? then Result(Success, so.value, t.1, t.2)
          else if t.0 == OutOfFuel then Result(Unknown, so.value, t.1, t.2)
          else if so.value + 1 > stop then Result(Stuck, so.value, t.1, t.2)
          else Retried(m, fuel, so.value + 1, t.2)
  }

  /** The loop of matcher() for an expression without: one repetition. */
  ghost function Once(m: Segment, re: Re, nmatch: nat, s: Store): Result
    requires m.Valid()
  {
    var start, stop := m.x.begin, m.x.end;
    var e := FirstEnd(m, start, start, stop);
    if e.None? then Result(REG_NOMATCH, start, start, s)
    else if nmatch == 0 then Result(Success, start, start, s)
    else
      var so := FirstStart(m, LastCold(m, start, e.value), stop);
      if so.None? then Result(REG_NOMATCH, start, start, s)
      else
        var eo := Longest(m, so.value, stop);
        if eo.None? then Result(REG_NOMATCH, start, start, s)
        else if nmatch == 1 then Result(Success, so.value, eo.value, s)
        else Result(Success, so.value, eo.value, s.(pm := Dissected(m.g, m.x, re, so.value, eo.value, s.pm)))
  }

  function Blank(g: Guts): Store {
    Store(seq(g.nsub + 1, _ => Unset), seq(g.nplus + 1, _ => -1))
  }

  ghost function Searched(m: Segment, re: Re, fuel: nat, nmatch: nat): Result
    requires m.Valid()
  {
    if m.g.backrefs then Retried(m, fuel, m.x.begin, Blank(m.g)) else Once(m, re, nmatch, Blank(m.g))
  }

  /** What matcher() answers, and the sub-matches that it reports. */
  ghost function Answer(m: Segment, re: Re, fuel: nat, nmatch: nat, given: seq<RegMatch>): (Status, seq<RegMatch>)
    requires m.Valid() && nmatch <= |given|
  {
    var r := Searched(m, re, fuel, nmatch);
    if r.status != Success || |r.store.pm| != m.g.nsub + 1 then (r.status, given)
    else (Success, Report(m.g, nmatch, given, r.so, r.eo, r.store.pm))
  }

  // ----- prescreening -----

  ghost predicate SomeMust(g: Guts, x: Subject) {
    exists d :: x.begin <= d < x.end && d + |g.must| <= x.end && MustAt(g, x, d)
  }

  method Prescreen(g: Guts, x: Subject) returns (found: bool)
    requires x.Valid()
    ensures found <==> g.must == [] || SomeMust(g, x)
  {
    if g.must == [] { return true; }
    var dp := x.begin;
    while dp < x.end
      invariant x.begin <= dp <= x.end
      invariant forall d | x.begin <= d < dp && d + |g.must| <= x.end :: !MustAt(g, x, d)
    {
      if x.end - dp >= |g.must| && x.text[dp] == g.must[0] && x.text[dp..dp + |g.must|] == g.must {
        assert MustAt(g, x, dp);
        return true;
      }
      dp := dp + 1;
    }
    return false;
  }

  lemma MatchHasMust(m: Segment, re: Re)
    requires m.Codes(re) && m.Valid() && MustHold(m.g, m.x, re) && m.g.must != []
    requires FirstEnd(m, m.x.begin, m.x.begin, m.x.end).Some?
    ensures SomeMust(m.g, m.x)
  {
    hide Scannable, Accepts, Matches;
    FirstEndIsFirst(m, m.x.begin, m.x.begin, m.x.end);
    var e := FirstEnd(m, m.x.begin, m.x.begin, m.x.end).value;
    var i := SomeEndsWitness(m, m.x.begin, e);
    AcceptsLanguage(m, re, i, e);
    assert HasMust(m.g, m.x, i, e);
  }

  // ----- the start and the end -----

  /** Find the start: from `coldp` on, the first place from which slow() finds a match. */
  method FindStart(m: Match, stop: int, gf: nat, gl: nat, ghost re: Re) returns (endp: int)
    requires m.Valid() && m.Seg(gf, gl).Codes(re) && stop == m.x.end
    requires m.x.begin <= m.coldp <= stop
    requires FirstStart(m.Seg(gf, gl), m.coldp, stop).Some?
    modifies m, m.st, m.st.bytes, m.tmp, m.tmp.bytes
    ensures m.Valid()
    ensures Some(m.coldp) == FirstStart(m.Seg(gf, gl), old(m.coldp), stop)
    ensures old(m.coldp) <= m.coldp <= endp <= stop
    ensures Some(endp) == Longest(m.Seg(gf, gl), m.coldp, stop)
  {
    hide Scannable, Accepts, Longest;
    ghost var seg := m.Seg(gf, gl);
    while true
      invariant m.Valid() && old(m.coldp) <= m.coldp <= stop
      invariant FirstStart(seg, m.coldp, stop) == FirstStart(seg, old(m.coldp), stop)
      decreases stop - m.coldp
    {
      var end := Slow(m, m.coldp, stop, gf, gl, re);
      LongestIsGreatest(seg, m.coldp, stop);
      if end != None {
        return end.value;
      }
      m.coldp := m.coldp + 1;
    }
  }

  /** A run is at the end at `e`, so one that begins at or after `coldp` is. */
  lemma StartExists(m: Segment, start: int, stop: int)
    requires m.Valid() && start <= stop
    requires FirstEnd(m, start, start, stop).Some?
    ensures var e := FirstEnd(m, start, start, stop).value;
            var c := LastCold(m, start, e);
            && start <= c <= e <= stop && FirstStart(m, c, stop).Some?
  {
    hide Scannable, Cold, SomeEnds;
    FirstEndIsFirst(m, start, start, stop);
    var e := FirstEnd(m, start, start, stop).value;
    LastColdIsLast(m, start, e);
    ColdKeepsAMatch(m, start, e);
    var c := LastCold(m, start, e);
    var k := SomeEndsWitness(m, c, e);
    FirstStartIsFirst(m, c, stop);
  }

  lemma SomeEndsWitness(m: Segment, from: int, e: int) returns (k: int)
    requires SomeEnds(m, from, e)
    ensures from <= k <= e && Accepts(m, k, e)
  {
    k :| from <= k <= e && Accepts(m, k, e);
  }

  // ----- the subexpressions, with back references -----

  /** Try backref() on the match that ends at `endp`, and then on shorter and shorter ones. */
  method BackSearch(m: Match, pm: array<RegMatch>, lastpos: array<int>, fuel: nat, end0: int, gf: nat, gl: nat, ghost re: Re)
    returns (dp: Outcome, endp: int)
    requires m.Valid() && m.Seg(gf, gl).Codes(re)
    requires m.x.begin <= m.coldp <= end0 <= m.x.end
    requires PlacedIn(m.g, gf, re, gl, gf, 0) && WellCompiled(m.g, pm.Length, lastpos.Length - 1) && lastpos.Length >= 1
    modifies m.st, m.st.bytes, m.tmp, m.tmp.bytes, pm, lastpos
    ensures m.Valid() && dp == (if dp.Done? then Done(endp) else dp)
    ensures (dp, endp, Store(pm[..], lastpos[..])) ==
            Shorter(m.Seg(gf, gl), fuel, m.coldp, end0, old(Store(pm[..], lastpos[..])))
  {
    hide Scannable, Accepts, Longest, Backtrack, EnoughRounds, WellCompiled, Holds, Matches, LongestMatch;
    endp := end0;
    while true
      invariant m.Valid() && m.coldp <= endp <= end0
      invariant Shorter(m.Seg(gf, gl), fuel, m.coldp, endp, Store(pm[..], lastpos[..])) ==
                Shorter(m.Seg(gf, gl), fuel, m.coldp, end0, old(Store(pm[..], lastpos[..])))
      decreases endp
    {
      FailureUndoes(m.g, m.x, fuel, m.coldp, endp, gf, gl, 0, Store(pm[..], lastpos[..]));
      dp := Backref(m, pm, lastpos, fuel, m.coldp, endp, gf, gl, 0, gf, re);
      if dp != NoMatch || endp <= m.coldp { return; }
      var shorter := Slow(m, m.coldp, endp - 1, gf, gl, re);
      LongestIsGreatest(m.Seg(gf, gl), m.coldp, endp - 1);
      if shorter == None { return; }
      endp := shorter.value;
    }
  }

  // ----- the main loop -----

  /** Find a match, and its start and end if they are wanted. */
  method Where(m: Match, start: int, stop: int, gf: nat, gl: nat, nmatch: nat, ghost re: Re) returns (found: bool, endp: int)
    requires m.Valid() && m.Seg(gf, gl).Codes(re) && m.Seg(gf, gl).Valid() && m.x.begin <= start <= stop == m.x.end
    modifies m.Repr()
    ensures m.Valid() && (found <==> FirstEnd(m.Seg(gf, gl), start, start, stop).Some?)
    ensures found && (nmatch > 0 || m.g.backrefs) ==>
              var e := FirstEnd(m.Seg(gf, gl), start, start, stop).value;
              && start <= m.coldp <= endp <= stop
              && Some(m.coldp) == FirstStart(m.Seg(gf, gl), LastCold(m.Seg(gf, gl), start, e), stop)
              && Some(endp) == Longest(m.Seg(gf, gl), m.coldp, stop)
  {
    hide Scannable, FirstEnd, FirstStart, Longest, LastCold, Matches, Holds;
    var r := Fast(m, start, stop, gf, gl, re);
    if r == None { return false, 0; }
    if nmatch == 0 && !m.g.backrefs { return true, 0; }

    StartExists(m.Seg(gf, gl), start, stop);
    endp := FindStart(m, stop, gf, gl, re);
    found := true;
  }

  /** One turn of the loop, with back references. */
  lemma TurnIs(m: Segment, fuel: nat, start: int, s: Store, so: int, eo: int)
    requires m.Valid() && start <= so && FirstEnd(m, start, start, m.x.end).Some?
    requires var e := FirstEnd(m, start, start, m.x.end).value;
             Some(so) == FirstStart(m, LastCold(m, start, e), m.x.end)
    requires Some(eo) == Longest(m, so, m.x.end)
    ensures Retried(m, fuel, start, s) ==
            var t := Shorter(m, fuel, so, eo, s);
            if t.0.Done? then Result(Success, so, t.1, t.2)
            else if t.0 == OutOfFuel then Result(Unknown, so, t.1, t.2)
            else if so + 1 > m.x.end then Result(Stuck, so, t.1, t.2)
            else Retried(m, fuel, so + 1, t.2)
  {
    hide Scannable, FirstEnd, FirstStart, Longest, LastCold, Shorter;
  }

  /** The only turn, without. */
  lemma OnceIs(m: Segment, re: Re, nmatch: nat, s: Store, so: int, eo: int)
    requires m.Valid() && FirstEnd(m, m.x.begin, m.x.begin, m.x.end).Some?
    requires nmatch > 0 ==>
               var e := FirstEnd(m, m.x.begin, m.x.begin, m.x.end).value;
               && Some(so) == FirstStart(m, LastCold(m, m.x.begin, e), m.x.end)
               && Some(eo) == Longest(m, so, m.x.end)
    ensures var r := Once(m, re, nmatch, s);
            && r.status == Success && (nmatch > 0 ==> (r.so, r.eo) == (so, eo))
            && r.store.pm == if nmatch > 1 then Dissected(m.g, m.x, re, so, eo, s.pm) else s.pm
  {
    hide Scannable, FirstEnd, FirstStart, Longest, LastCold, Dissected;
  }

  lemma MissIs(m: Segment, fuel: nat, start: int, s: Store)
    requires m.Valid() && FirstEnd(m, start, start, m.x.end).None?
    ensures Retried(m, fuel, start, s).status == REG_NOMATCH
  {
    hide Scannable, FirstEnd, FirstStart, Longest, LastCold, Shorter;
  }

  lemma OnceMisses(m: Segment, re: Re, nmatch: nat, s: Store)
    requires m.Valid() && FirstEnd(m, m.x.begin, m.x.begin, m.x.end).None?
    ensures Once(m, re, nmatch, s).status == REG_NOMATCH
  {
    hide Scannable, FirstEnd, FirstStart, Longest, LastCold;
  }

  lemma SearchedIs(m: Segment, re: Re, fuel: nat, nmatch: nat)
    requires m.Valid()
    ensures Searched(m, re, fuel, nmatch) ==
            if m.g.backrefs then Retried(m, fuel, m.x.begin, Blank(m.g)) else Once(m, re, nmatch, Blank(m.g))
  {
    hide Retried, Once, Blank;
  }

  method Search(m: Match, nmatch: nat, pm: array<RegMatch>, lastpos: array<int>, fuel: nat, ghost re: Re)
    returns (status: Status, endp: int)
    requires m.Valid() && Compiled(m.g, re) && Store(pm[..], lastpos[..]) == Blank(m.g)
    requires nmatch > 1 && !m.g.backrefs ==> m.Exact()
    modifies m.Repr(), pm, lastpos
    ensures m.Valid() && m.Seg(m.g.firststate + 1, m.g.laststate).Valid()
    ensures var r := Searched(m.Seg(m.g.firststate + 1, m.g.laststate), re, fuel, nmatch);
            && r.status == status
            && (status == Success && nmatch >= 1 ==> (r.so, r.eo) == (m.coldp, endp))
            && (status == Success ==> r.store.pm == pm[..])
  {
    hide *;
    var gf, gl := m.g.firststate + 1, m.g.laststate;
    ghost var seg := m.Seg(gf, gl);
    AtTheStart(m, re, pm, lastpos);
    CodesValid(seg, re);
    SearchedIs(seg, re, fuel, nmatch);
    var start, stop := m.x.begin, m.x.end;
    assert pm.Length == m.g.nsub + 1 && lastpos.Length == m.g.nplus + 1 by { BlankSizes(m.g, pm[..], lastpos[..]); }
    while true
      invariant m.Valid() && m.x.begin <= start <= stop
      invariant if m.g.backrefs then Retried(seg, fuel, start, Store(pm[..], lastpos[..])) == Searched(seg, re, fuel, nmatch)
                else start == m.x.begin && Store(pm[..], lastpos[..]) == Blank(m.g)
      decreases stop - start
    {
      var found;
      found, endp := Where(m, start, stop, gf, gl, nmatch, re);
      if !found {
        if m.g.backrefs { MissIs(seg, fuel, start, Store(pm[..], lastpos[..])); }
        else { OnceMisses(seg, re, nmatch, Blank(m.g)); }
        return REG_NOMATCH, 0;
      }
      if !m.g.backrefs { OnceIs(seg, re, nmatch, Blank(m.g), m.coldp, endp); }
      if nmatch <= 1 && !m.g.backrefs { return Success, endp; }

      // sub-matches are wanted, or decide whether there is a match
      if !m.g.backrefs {
        LongestIsAMatch(seg, re, m.coldp, stop);
        var dp := Dissect(m, pm, m.coldp, endp, gf, gl, re);
        return Success, endp;
      }
      TurnIs(seg, fuel, start, Store(pm[..], lastpos[..]), m.coldp, endp);
      var dp;
      dp, endp := BackSearch(m, pm, lastpos, fuel, endp, gf, gl, re);
      if dp.Done? { return Success, endp; }
      if dp == OutOfFuel { return Unknown, endp; }

      // a false alarm: the next turn begins behind it
      start := m.coldp + 1;
      if start > stop { return Stuck, endp; }
    }
  }

  lemma AtTheStart(m: Match, re: Re, pm: array<RegMatch>, lastpos: array<int>)
    requires m.Valid() && Compiled(m.g, re)
    ensures m.x.Valid() && m.x.begin <= m.x.end
    ensures var seg := m.Seg(m.g.firststate + 1, m.g.laststate);
            && seg.Codes(re) && seg.g == m.g && seg.x == m.x && (seg.Exact() <==> m.Exact())
            && (!m.g.backrefs ==> Fits(re, m.g.nsub + 1))
            && PlacedIn(m.g, m.g.firststate + 1, re, m.g.laststate, m.g.firststate + 1, 0)
            && WellCompiled(m.g, m.g.nsub + 1, m.g.nplus)
    ensures {m.st, m.st.bytes, m.tmp, m.tmp.bytes} <= m.Repr() && pm !in m.Repr() && lastpos !in m.Repr()
  {
    hide Scannable, EnoughRounds, Matches, Holds, Depth, Fits, WellCompiled;
  }

  lemma BlankSizes(g: Guts, pm: seq<RegMatch>, lastpos: seq<int>)
    requires Store(pm, lastpos) == Blank(g)
    ensures |pm| == g.nsub + 1 && |lastpos| == g.nplus + 1
  {
  }

  /** Write the caller's table. */
  method Fill(g: Guts, nmatch: nat, pmatch: array<RegMatch>, so: int, eo: int, pm: array<RegMatch>)
    requires nmatch <= pmatch.Length && pm.Length == g.nsub + 1 && pm != pmatch
    modifies pmatch
    ensures pmatch[..] == Report(g, nmatch, old(pmatch[..]), so, eo, pm[..])
  {
    if nmatch > 0 { pmatch[0] := RegMatch(so, eo); }
    var i := 1;
    while i < nmatch
      invariant 1 <= i
      invariant forall k | 0 <= k < pmatch.Length ::
                  pmatch[k] == if 0 < k < i && k < nmatch then (if k <= g.nsub then pm[k] else Unset)
                               else if k == 0 < nmatch then RegMatch(so, eo) else old(pmatch[k])
    {
      pmatch[i] := if i <= g.nsub then pm[i] else Unset;
      i := i + 1;
    }
  }

  /** The text that is searched. */
  function SubjectOf(str: string, eflags: Eflags, given: seq<RegMatch>): Subject
    requires eflags.startend ==> |given| >= 1
  {
    if eflags.startend then Subject(str, given[0].so, given[0].eo, eflags.notbol, eflags.noteol)
    else Subject(str, 0, |str|, eflags.notbol, eflags.noteol)
  }

  /** REG_NOTBOL is about the beginning of what is searched and REG_NOTEOL about its end. */
  lemma SubjectIs(g: Guts, str: string, eflags: Eflags, given: seq<RegMatch>)
    requires eflags.startend ==> |given| >= 1
    ensures var x := SubjectOf(str, eflags, given);
            && x.text == str
            && x.begin == (if eflags.startend then given[0].so else 0)
            && x.end == (if eflags.startend then given[0].eo else |str|)
            && (AtomMatches(g, x, Bol, x.begin, x.begin) <==> !eflags.notbol)
            && (AtomMatches(g, x, Eol, x.end, x.end) <==> !eflags.noteol)
  {
  }

  /** What REG_STARTEND asks of its caller, when the range is not upside down. */
  predicate RangeGiven(str: string, eflags: Eflags, given: seq<RegMatch>) {
    eflags.startend ==> |given| >= 1 && (given[0].so <= given[0].eo ==> 0 <= given[0].so && given[0].eo <= |str|)
  }

  ghost predicate Answers(g: Guts, re: Re, x: Subject, fuel: nat, nmatch: nat, given: seq<RegMatch>,
                          large: bool, status: Status, reported: seq<RegMatch>)
    requires nmatch <= |given|
  {
    var seg := Segment(g, x, g.firststate + 1, g.laststate, large);
    if x.end < x.begin then status == REG_INVARG && reported == given
    else seg.Valid() && (status, reported) == Answer(seg, re, fuel, nmatch, given)
  }

  /** Does the caller want sub-matches that dissect() finds? */
  predicate Subdivides(g: Guts, nmatch: nat) {
    nmatch > 1 && !g.nosub && !g.backrefs
  }

  method Matcher(g: Guts, str: string, nmatch0: nat, pmatch: array<RegMatch>, eflags: Eflags, large: bool, fuel: nat, ghost re: Re)
    returns (status: Status)
    requires Compiled(g, re) && (!large ==> |g.strip| <= WORD_BITS)
    requires Subdivides(g, nmatch0) ==> EnoughRounds(large, g)
    requires nmatch0 <= pmatch.Length && RangeGiven(str, eflags, pmatch[..])
    requires MustHold(g, SubjectOf(str, eflags, pmatch[..]), re)
    modifies pmatch
    ensures Answers(g, re, SubjectOf(str, eflags, old(pmatch[..])), fuel, if g.nosub then 0 else nmatch0,
                    old(pmatch[..]), large, status, pmatch[..])
  {
    hide Answer, Compiled, MustHold, SomeMust, EnoughRounds;
    var nmatch := if g.nosub then 0 else nmatch0;
    ghost var given := pmatch[..];
    var x := SubjectOf(str, eflags, pmatch[..]);
    if x.end < x.begin { return REG_INVARG; }
    var present := Prescreen(g, x);
    if !present {
      MissingMust(g, x, re, fuel, nmatch, given, large);
      return REG_NOMATCH;
    }
    status := Attempt(g, x, nmatch, pmatch, large, fuel, re);
  }

  /** Behind the prescreening: the match structure, the main loop, the report. */
  method Attempt(g: Guts, x: Subject, nmatch: nat, pmatch: array<RegMatch>, large: bool, fuel: nat, ghost re: Re)
    returns (status: Status)
    requires Compiled(g, re) && (!large ==> |g.strip| <= WORD_BITS) && x.Valid() && nmatch <= pmatch.Length
    requires nmatch > 1 && !g.backrefs ==> EnoughRounds(large, g)
    modifies pmatch
    ensures Answers(g, re, x, fuel, nmatch, old(pmatch[..]), large, status, pmatch[..])
  {
    hide Blank, Scannable, EnoughRounds, Searched, Report, Holds, WellCompiled, Fits, Depth;
    ghost var given := pmatch[..];
    var m := new Match(large, g, x);
    var pm := new RegMatch[g.nsub + 1](_ => Unset);
    var lastpos := new int[g.nplus + 1](_ => -1);
    AllBlank(g, pm[..], lastpos[..]);
    var endp;
    status, endp := Search(m, nmatch, pm, lastpos, fuel, re);
    if status == Success {
      ghost var r := Searched(m.Seg(g.firststate + 1, g.laststate), re, fuel, nmatch);
      if nmatch == 0 { NothingReported(g, given, r.so, r.eo, pm[..]); NothingReported(g, given, m.coldp, endp, pm[..]); }
      Fill(g, nmatch, pmatch, m.coldp, endp, pm);
    }
  }

  lemma AllBlank(g: Guts, pm: seq<RegMatch>, lastpos: seq<int>)
    requires |pm| == g.nsub + 1 && |lastpos| == g.nplus + 1
    requires (forall i | 0 <= i < |pm| :: pm[i] == Unset) && (forall i | 0 <= i < |lastpos| :: lastpos[i] == -1)
    ensures Store(pm, lastpos) == Blank(g)
  {
  }

  lemma NothingReported(g: Guts, given: seq<RegMatch>, so: int, eo: int, pm: seq<RegMatch>)
    requires |pm| == g.nsub + 1
    ensures Report(g, 0, given, so, eo, pm) == given
  {
  }

  lemma MissingMust(g: Guts, x: Subject, re: Re, fuel: nat, nmatch: nat, given: seq<RegMatch>, large: bool)
    requires Compiled(g, re) && x.Valid() && MustHold(g, x, re) && g.must != [] && !SomeMust(g, x) && nmatch <= |given|
    ensures Answers(g, re, x, fuel, nmatch, given, large, REG_NOMATCH, given)
  {
    hide Scannable, Accepts, Matches, Holds, Depth, WellCompiled, Fits, FirstStart, LastCold, Longest, Shorter, Dissected, MustHold, SomeMust;
    var m := Segment(g, x, g.firststate + 1, g.laststate, large);
    CodesValid(m, re);
    if FirstEnd(m, x.begin, x.begin, x.end).Some? { MatchHasMust(m, re); }
  }

  /** regexec() chooses the representation by the length of the strip. */
  method Regexec(g: Guts, str: string, nmatch: nat, pmatch: array<RegMatch>, eflags: Eflags, fuel: nat, ghost re: Re)
    returns (status: Status)
    requires Compiled(g, re)
    requires Subdivides(g, nmatch) ==> EnoughRounds(|g.strip| > WORD_BITS, g)
    requires nmatch <= pmatch.Length && RangeGiven(str, eflags, pmatch[..])
    requires MustHold(g, SubjectOf(str, eflags, pmatch[..]), re)
    modifies pmatch
    ensures Answers(g, re, SubjectOf(str, eflags, old(pmatch[..])), fuel, if g.nosub then 0 else nmatch,
                    old(pmatch[..]), |g.strip| > WORD_BITS, status, pmatch[..])
  {
    status := Matcher(g, str, nmatch, pmatch, eflags, |g.strip| > WORD_BITS, fuel, re);
  }
}
