/** What the include files hold, told by the events alone: who was said to include whom, and which symbols
    were said to be defined where. */
module IncludeHistory {
  import opened IncludeCache
  import opened IncludeRuns

  ghost predicate DefinedIn(es: seq<Event>, f: nat, sym: string) {
    exists val :: Defines(f, sym, val) in es
  }

  /** The value of the last definition. */
  function LastValue(es: seq<Event>, f: nat, sym: string): string
    decreases |es|
  {
    if es == [] then ""
    else
      var e := es[|es| - 1];
      if e.Defines? && e.f == f && e.sym == sym then e.val else LastValue(es[..|es| - 1], f, sym)
  }

  function Opened(es: seq<Event>): nat
    decreases |es|
  {
    if es == [] then 0 else Opened(es[..|es| - 1]) + if es[|es| - 1].Opens? then 1 else 0
  }

  predicate NoneTwice(s: seq<nat>) {
    forall i, j | 0 <= i < j < |s| :: s[i] != s[j]
  }

  /** What the events so far say about a file is what its record holds; no file is listed twice. */
  ghost predicate Tracks(es: seq<Event>, r: Run, f: nat)
    requires f < |r.own| && |r.own| == |r.files.list| == |r.files.finished|
  {
    && (forall c :: c in r.files.list[f] <==> Includes(f, c) in es) && NoneTwice(r.files.list[f])
    && (forall sym :: sym in r.own[f] <==> DefinedIn(es, f, sym))
    && (forall sym | sym in r.own[f] :: r.own[f][sym] == LastValue(es, f, sym))
    && (r.files.finished[f] <==> Finishes(f) in es)
  }

  ghost predicate AllTracked(es: seq<Event>, r: Run) {
    && |r.own| == |r.files.list| == |r.files.finished| == Opened(es)
    && forall f | 0 <= f < |r.own| :: Tracks(es, r, f)
  }

  /** No event is about a file that has not been opened. */
  ghost predicate About(es: seq<Event>, n: nat) {
    forall e | e in es :: e.Opens? || e.f < n
  }

  lemma OneMore(es: seq<Event>, e: Event, f: nat, sym: string)
    ensures DefinedIn(es + [e], f, sym) <==> DefinedIn(es, f, sym) || (e.Defines? && e.f == f && e.sym == sym)
    ensures LastValue(es + [e], f, sym) == if e.Defines? && e.f == f && e.sym == sym then e.val else LastValue(es, f, sym)
    ensures Opened(es + [e]) == Opened(es) + if e.Opens? then 1 else 0
  {
    assert (es + [e])[..|es|] == es;
    if e.Defines? && e.f == f && e.sym == sym { assert Defines(f, sym, e.val) in es + [e]; }
    if DefinedIn(es, f, sym) {
      var val :| Defines(f, sym, val) in es;
      assert Defines(f, sym, val) in es + [e];
    }
  }

  lemma NothingYet(es: seq<Event>, n: nat, f: nat)
    requires About(es, n) && f >= n
    ensures (forall c :: Includes(f, c) !in es) && (forall sym :: !DefinedIn(es, f, sym)) && Finishes(f) !in es
  {
  }

  /** One event. */
  lemma TracksOn(es: seq<Event>, q: Run, e: Event, f: nat)
    requires Shaped(q.files) && AllTracked(es, q) && About(es, |q.own|) && Allowed(q.files, e)
    ensures var r := After(q, e);
            && |r.own| == |r.files.list| == |r.files.finished| == |q.own| + (if e.Opens? then 1 else 0)
            && (f < |r.own| ==> Tracks(es + [e], r, f))
  {
    var r := After(q, e);
    forall sym ensures DefinedIn(es + [e], f, sym) <==> DefinedIn(es, f, sym) || (e.Defines? && e.f == f && e.sym == sym) {
      OneMore(es, e, f, sym);
    }
    forall sym
      ensures LastValue(es + [e], f, sym) == if e.Defines? && e.f == f && e.sym == sym then e.val else LastValue(es, f, sym)
    {
      OneMore(es, e, f, sym);
    }
    hide DefinedIn, LastValue;
    if f < |q.own| {
      assert Tracks(es, q, f);
    } else {
      NothingYet(es, |q.own|, f);
    }
  }

  lemma {:induction false} RunTracks(es: seq<Event>, r: Run)
    requires Reaches(es, r)
    ensures AllTracked(es, r) && About(es, |r.own|)
    decreases |es|
  {
    if es != [] {
      var e, before := es[|es| - 1], es[..|es| - 1];
      var q :| Reaches(before, q) && Shaped(q.files) && |q.own| == |q.files.list| && Allowed(q.files, e) && r == After(q, e);
      RunTracks(before, q);
      assert es == before + [e];
      AllTrackedOn(before, q, e);
    }
  }

  lemma AllTrackedOn(es: seq<Event>, q: Run, e: Event)
    requires Shaped(q.files) && AllTracked(es, q) && About(es, |q.own|) && Allowed(q.files, e)
    ensures AllTracked(es + [e], After(q, e)) && About(es + [e], |After(q, e).own|)
  {
    hide Tracks, After, Shaped;
    var r := After(q, e);
    OneMore(es, e, 0, "");
    TracksOn(es, q, e, 0);
    forall f | 0 <= f < |r.own| ensures Tracks(es + [e], r, f) { TracksOn(es, q, e, f); }
  }

  /** A way along the includes that the events tell of. */
  ghost predicate Told(es: seq<Event>, p: seq<nat>) {
    |p| >= 1 && forall k | 0 <= k < |p| - 1 :: Includes(p[k], p[k + 1]) in es
  }

  lemma {:induction false} PathIsTold(es: seq<Event>, r: Run, p: seq<nat>)
    requires AllTracked(es, r) && About(es, |r.own|) && |p| >= 1 && p[|p| - 1] < |r.own|
    ensures Path(r.files.list, p) <==> Told(es, p)
    decreases |p|
  {
    if |p| > 1 {
      PathIsTold(es, r, p[1..]);
      assert forall k | 0 <= k < |p[1..]| :: p[1..][k] == p[k + 1];
      if p[0] < |r.own| { assert Tracks(es, r, p[0]); }
      if Told(es, p) {
        assert Includes(p[0], p[1]) in es;
        assert Told(es, p[1..]);
      }
      if Path(r.files.list, p) {
        forall k | 0 <= k < |p| - 1 ensures Includes(p[k], p[k + 1]) in es {
          if k > 0 { assert Includes(p[1..][k - 1], p[1..][k]) in es; }
        }
      }
    }
  }

  /** p tells how f comes to a definition of the symbol. */
  ghost predicate TellsOf(es: seq<Event>, p: seq<nat>, f: nat, sym: string) {
    Told(es, p) && p[0] == f && DefinedIn(es, p[|p| - 1], sym)
  }

  /** After any run of events a symbol is found from a file if and only if the events told of a definition of
      it in that file, or in one that it was said to include, directly or not. */
  lemma LookupsFollowHistory(es: seq<Event>, r: Run, sym: string, f: nat)
    requires Reaches(es, r) && f < |r.own|
    ensures |r.own| == |r.files.list| && Shaped(r.files)
    ensures FDefined(r.files, sym, f).1.Some? <==> exists p :: TellsOf(es, p, f, sym)
  {
    LookupsSeeOwnDefinitions(es, r, sym, f);
    RunTracks(es, r);
    var u := Uncached(r);
    hide FDefined, Reaches, Tracks;
    if Finds(u, sym, f, {}) {
      var p :| PathTo(u, sym, f, {}, p);
      PathIsTold(es, r, p);
      OwnIsTold(es, r, p[|p| - 1], sym);
      assert TellsOf(es, p, f, sym);
    }
    if exists p :: TellsOf(es, p, f, sym) {
      var p :| TellsOf(es, p, f, sym);
      DefinedIsAbout(es, |r.own|, p[|p| - 1], sym);
      PathIsTold(es, r, p);
      OwnIsTold(es, r, p[|p| - 1], sym);
      assert PathTo(u, sym, f, {}, p);
    }
  }

  lemma OwnIsTold(es: seq<Event>, r: Run, g: nat, sym: string)
    requires AllTracked(es, r) && g < |r.own|
    ensures sym in r.own[g] <==> DefinedIn(es, g, sym)
  {
    assert Tracks(es, r, g);
  }

  lemma DefinedIsAbout(es: seq<Event>, n: nat, g: nat, sym: string)
    requires About(es, n) && DefinedIn(es, g, sym)
    ensures g < n
  {
  }
}
