/** The include files over a whole run: files are opened, define symbols and include each other
    until they are read to the end, and symbols are looked up at any time.  Beside the tables that
    the cache has merged, `own` keeps what each file defines itself. */
module IncludeRuns {
  import opened IncludeCache

  datatype Event =
    | Opens
    | Defines(f: nat, sym: string, val: string)
    | Includes(f: nat, c: nat)
    | Finishes(f: nat)
    | LooksUp(sym: string, f: nat)

  datatype Run = Run(files: Files, own: seq<map<string, string>>)

  /** A file defines and includes only while it is read; it is read once. */
  predicate Allowed(s: Files, e: Event)
    requires |s.finished| == |s.list|
  {
    match e
    case Opens => true
    case Defines(f, _, _) => f < |s.list| && !s.finished[f]
    case Includes(f, c) => f < |s.list| && c < |s.list| && !s.finished[f]
    case Finishes(f) => f < |s.list|
    case LooksUp(_, f) => f < |s.list|
  }

  /** included_by(): a file that is on the list already is not put there again. */
  function IncludedBy(s: Files, f: nat, c: nat): Files
    requires f < |s.list| == |s.merged|
  {
    if c in s.list[f] then s
    else s.(list := s.list[f := s.list[f] + [c]], merged := s.merged[f := s.merged[f] + [false]])
  }

  ghost function After(r: Run, e: Event): Run
    requires Shaped(r.files) && |r.own| == |r.files.list| && Allowed(r.files, e)
  {
    var s := r.files;
    match e
    case Opens =>
      Run(s.(list := s.list + [[]], defs := s.defs + [map[]], merged := s.merged + [[]], finished := s.finished + [false]),
          r.own + [map[]])
    case Defines(f, sym, val) => Run(s.(defs := s.defs[f := s.defs[f][sym := val]]), r.own[f := r.own[f][sym := val]])
    case Includes(f, c) => r.(files := IncludedBy(s, f, c))
    case Finishes(f) => r.(files := s.(finished := s.finished[f := true]))
    case LooksUp(sym, f) => r.(files := FDefined(s, sym, f).0)
  }

  /** The files as they would be without the cache. */
  function Uncached(r: Run): Files
    requires |r.own| == |r.files.list|
  {
    Files(r.files.list, r.own, seq(|r.files.list|, f requires 0 <= f < |r.files.list| => seq(|r.files.list[f]|, _ => false)),
          r.files.finished, {})
  }

  /** What every event keeps: each table holds the file's own symbols, and beyond them only symbols
      that are found from the file without the cache. */
  ghost predicate RunOk(r: Run) {
    && CacheOk(r.files) && r.files.checked == {} && |r.own| == |r.files.list| && Shaped(Uncached(r))
    && forall f | 0 <= f < |r.own| :: OwnOk(r, f)
  }

  ghost predicate OwnOk(r: Run, f: nat)
    requires Shaped(r.files) && f < |r.own| == |r.files.list| && Shaped(Uncached(r))
  {
    r.own[f].Keys <= r.files.defs[f].Keys && forall sym | sym in r.files.defs[f] :: Finds(Uncached(r), sym, f, {})
  }

  lemma {:induction false} PathsJoin(u: Files, sym: string, p: seq<nat>, q: seq<nat>)
    requires Shaped(u) && Path(u.list, p) && |q| >= 1 && p[|p| - 1] == q[0] && PathTo(u, sym, q[0], {}, q)
    ensures PathTo(u, sym, p[0], {}, p[..|p| - 1] + q)
    decreases |p|
  {
    if |p| > 1 {
      PathsJoin(u, sym, p[1..], q);
      assert (p[..|p| - 1] + q)[1..] == p[1..][..|p| - 2] + q;
    } else {
      assert p[..0] + q == q;
    }
  }

  /** With the invariant, the cached tables find what the files' own definitions find. */
  lemma CachedIsUncached(r: Run, sym: string, f: nat)
    requires RunOk(r) && f < |r.own|
    ensures Finds(r.files, sym, f, {}) <==> Finds(Uncached(r), sym, f, {})
  {
    var s, u := r.files, Uncached(r);
    if Finds(s, sym, f, {}) {
      var p :| PathTo(s, sym, f, {}, p);
      var g := p[|p| - 1];
      assert OwnOk(r, g);
      var q :| PathTo(u, sym, g, {}, q);
      PathsJoin(u, sym, p, q);
    }
    if Finds(u, sym, f, {}) {
      var p :| PathTo(u, sym, f, {}, p);
      assert OwnOk(r, p[|p| - 1]);
      assert PathTo(s, sym, f, {}, p);
    }
  }

  /** More files, more includes and more definitions lead to no fewer finds. */
  lemma {:induction false} PathWidens(l: seq<seq<nat>>, l': seq<seq<nat>>, p: seq<nat>)
    requires Path(l, p) && |l| <= |l'| && forall f | 0 <= f < |l| :: forall c | c in l[f] :: c in l'[f]
    ensures Path(l', p)
    decreases |p|
  {
    if |p| > 1 { PathWidens(l, l', p[1..]); }
  }

  ghost predicate Widens(u: Files, u': Files)
    requires Shaped(u) && Shaped(u')
  {
    |u.list| <= |u'.list| && forall f | 0 <= f < |u.list| ::
      (forall c | c in u.list[f] :: c in u'.list[f]) && u.defs[f].Keys <= u'.defs[f].Keys
  }

  lemma FindsWidens(u: Files, u': Files, sym: string, f: nat)
    requires Shaped(u) && Shaped(u') && Widens(u, u') && Finds(u, sym, f, {})
    ensures Finds(u', sym, f, {})
  {
    var p :| PathTo(u, sym, f, {}, p);
    PathWidens(u.list, u'.list, p);
    assert PathTo(u', sym, f, {}, p);
  }

  // ----- one event -----

  lemma OwnKeeps(r: Run, r': Run)
    requires RunOk(r) && CacheOk(r'.files) && r'.files.checked == {} && |r'.own| == |r'.files.list| && Shaped(Uncached(r'))
    requires Widens(Uncached(r), Uncached(r'))
    requires forall f | 0 <= f < |r'.own| :: r'.own[f].Keys <= r'.files.defs[f].Keys
    requires forall f, sym | 0 <= f < |r'.own| && sym in r'.files.defs[f] ::
               sym in r'.own[f] || (f < |r.own| && sym in r.files.defs[f])
    ensures RunOk(r')
  {
    forall f | 0 <= f < |r'.own| ensures OwnOk(r', f) {
      forall sym | sym in r'.files.defs[f] ensures Finds(Uncached(r'), sym, f, {}) {
        if sym in r'.own[f] {
          assert PathTo(Uncached(r'), sym, f, {}, [f]);
        } else {
          assert OwnOk(r, f);
          FindsWidens(Uncached(r), Uncached(r'), sym, f);
        }
      }
    }
  }

  lemma OpensKeeps(r: Run)
    requires RunOk(r)
    ensures RunOk(After(r, Opens))
  {
    var s, r' := r.files, After(r, Opens);
    var s' := r'.files;
    forall g | 0 <= g < |s'.list| ensures ShapedAt(s', g) && ShapedAt(Uncached(r'), g) {
      if g < |s.list| { assert ShapedAt(s, g); }
    }
    forall g | 0 <= g < |s'.list| ensures CacheOkAt(s', g) {
      if g < |s.list| {
        assert CacheOkAt(s, g) && ShapedAt(s, g);
        forall j | 0 <= j < |s.list[g]| && s.merged[g][j] ensures AllMerged(s', s.list[g][j]) {
          assert AllMerged(s, s.list[g][j]);
        }
      }
    }
    forall f | 0 <= f < |r'.own| ensures r'.own[f].Keys <= s'.defs[f].Keys {
      if f < |r.own| { assert OwnOk(r, f); }
    }
    OwnKeeps(r, r');
  }

  lemma DefinesKeeps(r: Run, f: nat, sym: string, val: string)
    requires RunOk(r) && Allowed(r.files, Defines(f, sym, val))
    ensures RunOk(After(r, Defines(f, sym, val)))
  {
    var s, r' := r.files, After(r, Defines(f, sym, val));
    var s' := r'.files;
    forall g | 0 <= g < |s'.list| ensures ShapedAt(s', g) && ShapedAt(Uncached(r'), g) { assert ShapedAt(s, g); }
    forall g | 0 <= g < |s'.list| ensures CacheOkAt(s', g) {
      assert CacheOkAt(s, g) && ShapedAt(s, g);
      forall j | 0 <= j < |s.list[g]| && s.merged[g][j] ensures AllMerged(s', s.list[g][j]) {
        assert AllMerged(s, s.list[g][j]);
      }
    }
    forall g | 0 <= g < |r'.own| ensures r'.own[g].Keys <= s'.defs[g].Keys { assert OwnOk(r, g); }
    OwnKeeps(r, r');
  }

  lemma IncludesKeeps(r: Run, f: nat, c: nat)
    requires RunOk(r) && Allowed(r.files, Includes(f, c))
    ensures RunOk(After(r, Includes(f, c)))
  {
    var s, r' := r.files, After(r, Includes(f, c));
    var s' := r'.files;
    forall g | 0 <= g < |s'.list| ensures ShapedAt(s', g) && ShapedAt(Uncached(r'), g) { assert ShapedAt(s, g); }
    forall g | 0 <= g < |s'.list| ensures CacheOkAt(s', g) {
      assert CacheOkAt(s, g) && ShapedAt(s, g) && ShapedAt(s', g);
      forall j | 0 <= j < |s'.list[g]| && s'.merged[g][j]
        ensures var d := s'.list[g][j]; s'.finished[d] && AllMerged(s', d) && s'.defs[d].Keys <= s'.defs[g].Keys
      {
        assert j < |s.list[g]| && s.merged[g][j];
        assert AllMerged(s, s.list[g][j]);
      }
    }
    forall g | 0 <= g < |r'.own| ensures r'.own[g].Keys <= s'.defs[g].Keys { assert OwnOk(r, g); }
    OwnKeeps(r, r');
  }

  lemma FinishesKeeps(r: Run, f: nat)
    requires RunOk(r) && Allowed(r.files, Finishes(f))
    ensures RunOk(After(r, Finishes(f)))
  {
    var s, r' := r.files, After(r, Finishes(f));
    var s' := r'.files;
    forall g | 0 <= g < |s'.list| ensures ShapedAt(s', g) && ShapedAt(Uncached(r'), g) { assert ShapedAt(s, g); }
    forall g | 0 <= g < |s'.list| ensures CacheOkAt(s', g) {
      assert CacheOkAt(s, g) && ShapedAt(s, g);
      forall j | 0 <= j < |s.list[g]| && s.merged[g][j] ensures AllMerged(s', s.list[g][j]) {
        assert AllMerged(s, s.list[g][j]);
      }
    }
    forall g | 0 <= g < |r'.own| ensures r'.own[g].Keys <= s'.defs[g].Keys { assert OwnOk(r, g); }
    OwnKeeps(r, r');
  }

  lemma LooksUpKeeps(r: Run, sym: string, f: nat)
    requires RunOk(r) && Allowed(r.files, LooksUp(sym, f))
    ensures RunOk(After(r, LooksUp(sym, f)))
  {
    var s, r' := r.files, After(r, LooksUp(sym, f));
    var s' := r'.files;
    LookupIsReachability(s, sym, f);
    FDefinedFinds(s, sym, f);
    assert Uncached(r') == Uncached(r);
    forall g | 0 <= g < |r'.own| ensures OwnOk(r', g) {
      assert OwnOk(r, g);
      forall y | y in s'.defs[g] ensures Finds(Uncached(r'), y, g, {}) {
        assert PathTo(s', y, g, {}, [g]);
        assert Finds(s', y, g, {});
        CachedIsUncached(r, y, g);
      }
    }
  }

  // ----- the run -----

  /** A run of allowed events, from no files at all. */
  ghost predicate Reaches(es: seq<Event>, r: Run)
    decreases |es|
  {
    if es == [] then r == Run(Files([], [], [], [], {}), [])
    else exists q :: Reaches(es[..|es| - 1], q) && Shaped(q.files) && |q.own| == |q.files.list|
                     && Allowed(q.files, es[|es| - 1]) && r == After(q, es[|es| - 1])
  }

  lemma {:induction false} RunKeeps(es: seq<Event>, r: Run)
    requires Reaches(es, r)
    ensures RunOk(r)
    decreases |es|
  {
    if es != [] {
      var e := es[|es| - 1];
      var q :| Reaches(es[..|es| - 1], q) && Shaped(q.files) && |q.own| == |q.files.list| && Allowed(q.files, e)
               && r == After(q, e);
      RunKeeps(es[..|es| - 1], q);
      match e
      case Opens => OpensKeeps(q);
      case Defines(f, sym, val) => DefinesKeeps(q, f, sym, val);
      case Includes(f, c) => IncludesKeeps(q, f, c);
      case Finishes(f) => FinishesKeeps(q, f);
      case LooksUp(sym, f) => LooksUpKeeps(q, sym, f);
    }
  }

  /** At any time of any run, whatever has been looked up and merged before, a symbol is found from
      a file exactly when the file, or one that it includes directly or not, defines it itself. */
  lemma LookupsSeeOwnDefinitions(es: seq<Event>, r: Run, sym: string, f: nat)
    requires Reaches(es, r) && f < |r.own|
    ensures |r.own| == |r.files.list| && Shaped(r.files) && Shaped(Uncached(r))
    ensures FDefined(r.files, sym, f).1.Some? <==> Finds(Uncached(r), sym, f, {})
  {
    RunKeeps(es, r);
    LookupIsReachability(r.files, sym, f);
    CachedIsUncached(r, sym, f);
  }
}
