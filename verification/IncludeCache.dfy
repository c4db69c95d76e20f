/** Looking a symbol up in a file and in all that it includes.  The files may include each other in
    circles; what a file's children define is merged into the file's own table once they are done. */
module IncludeCache {
  import opened Options

  /** The records of all include files.  `list` and `merged` go together, child by child. */
  datatype Files = Files(
    list: seq<seq<nat>>,
    defs: seq<map<string, string>>,
    merged: seq<seq<bool>>,
    finished: seq<bool>,
    checked: set<nat>)

  ghost predicate Shaped(s: Files) {
    && |s.list| == |s.defs| == |s.merged| == |s.finished|
    && (forall f | 0 <= f < |s.list| :: ShapedAt(s, f))
    && forall f | f in s.checked :: f < |s.list|
  }

  ghost predicate ShapedAt(s: Files, f: nat)
    requires f < |s.list| == |s.merged|
  {
    |s.merged[f]| == |s.list[f]| && forall i | 0 <= i < |s.list[f]| :: s.list[f][i] < |s.list|
  }

  predicate AllMerged(s: Files, f: nat)
    requires f < |s.merged|
  {
    forall i | 0 <= i < |s.merged[f]| :: s.merged[f][i]
  }

  /** Where a merge has taken place, the child is done, has nothing left to merge itself, and all
      that it defines the parent defines as well. */
  ghost predicate CacheOk(s: Files) {
    Shaped(s) && forall f | 0 <= f < |s.list| :: CacheOkAt(s, f)
  }

  ghost predicate CacheOkAt(s: Files, f: nat)
    requires Shaped(s) && f < |s.list|
  {
    assert ShapedAt(s, f);
    forall i | 0 <= i < |s.list[f]| && s.merged[f][i] ::
      var c := s.list[f][i];
      s.finished[c] && AllMerged(s, c) && s.defs[c].Keys <= s.defs[f].Keys
  }

  // ----- the functions -----

  /** merge2defines() of f and its i-th child, and the flag that is set from it. */
  function Merge(s: Files, f: nat, i: nat): (r: Files)
    requires Shaped(s) && f < |s.list| && i < |s.list[f]|
    ensures Shaped(r) && r.list == s.list && r.checked == s.checked && r.finished == s.finished
  {
    assert ShapedAt(s, f);
    var c := s.list[f][i];
    var done := s.finished[c] && AllMerged(s, c);
    var r := s.(merged := s.merged[f := s.merged[f][i := done]],
                defs := if done then s.defs[f := s.defs[f] + s.defs[c]] else s.defs);
    assert forall g | 0 <= g < |s.list| :: ShapedAt(s, g) ==> ShapedAt(r, g);
    r
  }

  ghost function Unchecked(s: Files): set<nat> {
    set f: nat | f < |s.list| && f !in s.checked
  }

  /** fdefined(): the file whose table has the symbol. */
  ghost function FDefined(s: Files, sym: string, f: nat): (r: (Files, Option<nat>))
    requires Shaped(s) && f < |s.list|
    ensures Shaped(r.0) && r.0.list == s.list && r.0.checked == s.checked && r.0.finished == s.finished
    decreases |Unchecked(s)|, 0
  {
    if f in s.checked then (s, None)
    else if sym in s.defs[f] then (s, Some(f))
    else
      var s1 := s.(checked := s.checked + {f});
      assert Shaped(s1) by { assert forall g | 0 <= g < |s.list| :: ShapedAt(s, g) ==> ShapedAt(s1, g); }
      assert Unchecked(s1) == Unchecked(s) - {f};
      var r := Children(s1, sym, f, 0);
      var s2 := r.0.(checked := r.0.checked - {f});
      assert Shaped(s2) by { assert forall g | 0 <= g < |s.list| :: ShapedAt(r.0, g) ==> ShapedAt(s2, g); }
      assert s2.checked == s.checked;
      (s2, r.1)
  }

  /** The children of f, from the i-th on. */
  ghost function Children(s: Files, sym: string, f: nat, i: nat): (r: (Files, Option<nat>))
    requires Shaped(s) && f < |s.list| && i <= |s.list[f]| && f in s.checked
    ensures Shaped(r.0) && r.0.list == s.list && r.0.checked == s.checked && r.0.finished == s.finished
    decreases |Unchecked(s)|, 1 + |s.list[f]| - i
  {
    assert ShapedAt(s, f);
    if i == |s.list[f]| then (s, None)
    else if s.merged[f][i] then Children(s, sym, f, i + 1)
    else
      var r := FDefined(s, sym, s.list[f][i]);
      var s' := Merge(r.0, f, i);
      if r.1.Some? then (s', r.1) else Children(s', sym, f, i + 1)
  }

  // ----- what it should find -----

  /** A way along the includes, from its first file to its last. */
  ghost predicate Path(list: seq<seq<nat>>, p: seq<nat>)
    decreases |p|
  {
    |p| >= 1 && p[0] < |list| && (|p| > 1 ==> p[1] in list[p[0]] && Path(list, p[1..]))
  }

  ghost predicate Avoids(p: seq<nat>, m: set<nat>) {
    forall k | 0 <= k < |p| :: p[k] !in m
  }

  ghost predicate PathTo(s: Files, sym: string, f: nat, m: set<nat>, p: seq<nat>)
    requires Shaped(s)
  {
    Path(s.list, p) && Avoids(p, m) && p[0] == f && p[|p| - 1] < |s.list| && sym in s.defs[p[|p| - 1]]
  }

  /** A file that has the symbol is reached from f without any file of `m`. */
  ghost predicate Finds(s: Files, sym: string, f: nat, m: set<nat>)
    requires Shaped(s)
  {
    exists p :: PathTo(s, sym, f, m, p)
  }

  lemma {:induction false} PathInside(list: seq<seq<nat>>, p: seq<nat>, k: nat)
    requires Path(list, p) && k < |p| && forall f | 0 <= f < |list| :: forall c | c in list[f] :: c < |list|
    ensures p[k] < |list| && Path(list, p[k..])
    decreases |p|
  {
    if k > 0 {
      PathInside(list, p[1..], k - 1);
      assert p[1..][k - 1..] == p[k..];
    } else {
      assert p[0..] == p;
    }
  }

  /** A path may be taken up behind its last visit to f. */
  lemma {:induction false} LastVisit(s: Files, sym: string, f: nat, m: set<nat>, p: seq<nat>) returns (q: seq<nat>)
    requires Shaped(s) && |p| >= 1 && PathTo(s, sym, p[0], m, p) && (p[0] == f || f in p)
    ensures PathTo(s, sym, f, m, q) && f !in q[1..]
    decreases |p|
  {
    if f in p[1..] {
      assert PathTo(s, sym, p[1], m, p[1..]);
      q := LastVisit(s, sym, f, m, p[1..]);
    } else {
      q := p;
    }
  }

  /** What a file's merged child leads to, the file has in its own table. */
  lemma {:induction false} MergedHolds(s: Files, sym: string, f: nat, p: seq<nat>)
    requires CacheOk(s) && |p| >= 1 && PathTo(s, sym, p[0], {}, p) && AllMerged(s, p[0])
    ensures sym in s.defs[p[0]]
    decreases |p|
  {
    if |p| > 1 {
      assert CacheOkAt(s, p[0]) && ShapedAt(s, p[0]);
      var i :| 0 <= i < |s.list[p[0]]| && s.list[p[0]][i] == p[1];
      assert PathTo(s, sym, p[1], {}, p[1..]);
      MergedHolds(s, sym, f, p[1..]);
    }
  }

  /** Beyond the file itself only its children that are not merged need to be searched. */
  lemma FindsBeyond(s: Files, sym: string, f: nat, m: set<nat>) returns (j: nat)
    requires CacheOk(s) && f < |s.list| && Finds(s, sym, f, m) && sym !in s.defs[f]
    ensures ShapedAt(s, f) && j < |s.list[f]| && !s.merged[f][j] && Finds(s, sym, s.list[f][j], m + {f})
  {
    var p :| PathTo(s, sym, f, m, p);
    var q := LastVisit(s, sym, f, m, p);
    assert CacheOkAt(s, f) && ShapedAt(s, f);
    j :| 0 <= j < |s.list[f]| && s.list[f][j] == q[1];
    assert PathTo(s, sym, q[1], m + {f}, q[1..]);
    if s.merged[f][j] {
      assert PathTo(s, sym, q[1], {}, q[1..]);
      MergedHolds(s, sym, f, q[1..]);
      assert false;
    }
  }

  lemma FindsThrough(s: Files, sym: string, f: nat, m: set<nat>, j: nat)
    requires Shaped(s) && f < |s.list| && f !in m && ShapedAt(s, f) && j < |s.list[f]|
    requires Finds(s, sym, s.list[f][j], m + {f})
    ensures Finds(s, sym, f, m)
  {
    var p :| PathTo(s, sym, s.list[f][j], m + {f}, p);
    var q := [f] + p;
    assert q[1..] == p;
    assert PathTo(s, sym, f, m, q);
  }

  // ----- what a search changes -----

  /** `r` follows from `s`: tables only grow, by names that the file could see anyway, and what
      belongs to the files of `m` is as it was. */
  ghost predicate Grows(s: Files, r: Files, m: set<nat>) {
    && Shaped(s) && Shaped(r) && r.list == s.list && r.checked == s.checked && r.finished == s.finished
    && (forall f | 0 <= f < |s.list| :: s.defs[f].Keys <= r.defs[f].Keys)
    && (forall f | 0 <= f < |s.list| && f in m :: s.defs[f] == r.defs[f] && s.merged[f] == r.merged[f])
  }

  /** Every symbol is found from the same files as before. */
  ghost predicate Same(s: Files, r: Files)
    requires Shaped(s) && Shaped(r)
  {
    |r.list| == |s.list| && forall sym, f | 0 <= f < |s.list| :: Finds(s, sym, f, {}) <==> Finds(r, sym, f, {})
  }

  lemma SameThen(s: Files, r: Files, t: Files)
    requires Shaped(s) && Shaped(r) && Shaped(t) && Same(s, r) && Same(r, t)
    ensures Same(s, t)
  {
  }

  /** Tables that are alike find alike. */
  lemma FindsAlike(s: Files, r: Files, sym: string, f: nat, m: set<nat>)
    requires Shaped(s) && Shaped(r) && r.list == s.list
    requires forall g | 0 <= g < |s.list| :: sym in s.defs[g] ==> sym in r.defs[g]
    ensures Finds(s, sym, f, m) ==> Finds(r, sym, f, m)
  {
    if Finds(s, sym, f, m) {
      var p :| PathTo(s, sym, f, m, p);
      assert PathTo(r, sym, f, m, p);
    }
  }

  lemma {:induction false} PathGoesOn(s: Files, sym: string, f: nat, p: seq<nat>, c: nat)
    requires Shaped(s) && c < |s.list| && Path(s.list, p) && p[0] == f && sym in s.defs[c]
    requires p[|p| - 1] < |s.list| && c in s.list[p[|p| - 1]]
    ensures PathTo(s, sym, f, {}, p + [c])
    decreases |p|
  {
    if |p| > 1 {
      PathGoesOn(s, sym, p[1], p[1..], c);
      assert (p + [c])[1..] == p[1..] + [c];
    } else {
      assert (p + [c])[1..] == [c];
    }
  }

  lemma MergeOk(s: Files, f: nat, i: nat)
    requires CacheOk(s) && f < |s.list| && ShapedAt(s, f) && i < |s.list[f]| && !s.merged[f][i]
    ensures CacheOk(Merge(s, f, i)) && Same(s, Merge(s, f, i))
    ensures forall g | 0 <= g < |s.list| && g != f ::
              Merge(s, f, i).defs[g] == s.defs[g] && Merge(s, f, i).merged[g] == s.merged[g]
    ensures s.defs[f].Keys <= Merge(s, f, i).defs[f].Keys <= s.defs[f].Keys + s.defs[s.list[f][i]].Keys
  {
    var r, c := Merge(s, f, i), s.list[f][i];
    forall g | 0 <= g < |s.list| ensures CacheOkAt(r, g) {
      assert CacheOkAt(s, g) && ShapedAt(s, g) && ShapedAt(r, g);
      forall j | 0 <= j < |r.list[g]| && r.merged[g][j]
        ensures var d := r.list[g][j]; r.finished[d] && AllMerged(r, d) && r.defs[d].Keys <= r.defs[g].Keys
      {
        var d := r.list[g][j];
        assert g == f && j == i ==> d == c && AllMerged(s, c);
        assert AllMerged(s, d);
        assert d != f;
        assert r.merged[d] == s.merged[d];
      }
    }
    MergeSame(s, f, i);
  }

  lemma MergeSame(s: Files, f: nat, i: nat)
    requires Shaped(s) && f < |s.list| && ShapedAt(s, f) && i < |s.list[f]|
    ensures Same(s, Merge(s, f, i))
  {
    var r, c := Merge(s, f, i), s.list[f][i];
    forall sym, h | 0 <= h < |s.list| ensures Finds(s, sym, h, {}) <==> Finds(r, sym, h, {}) {
      FindsAlike(s, r, sym, h, {});
      if Finds(r, sym, h, {}) {
        var p :| PathTo(r, sym, h, {}, p);
        var g := p[|p| - 1];
        if sym in s.defs[g] {
          assert PathTo(s, sym, h, {}, p);
        } else {
          PathGoesOn(s, sym, h, p, c);
        }
      }
    }
  }

  // ----- the search is right -----

  ghost predicate NoneMarked(s: Files, sym: string)
    requires Shaped(s)
  {
    forall g | g in s.checked :: sym !in s.defs[g]
  }

  ghost predicate SearchOk(s: Files, sym: string, m: set<nat>, r: (Files, Option<nat>), found: bool)
    requires Shaped(s)
  {
    && Grows(s, r.0, m) && CacheOk(r.0) && Same(s, r.0)
    && (r.1.Some? <==> found)
    && (r.1.Some? ==> r.1.value < |s.list| && sym in r.0.defs[r.1.value])
    && (r.1.None? ==> forall g | 0 <= g < |s.list| :: sym in r.0.defs[g] ==> sym in s.defs[g])
  }

  ghost predicate ChildFinds(s: Files, sym: string, f: nat, j: nat)
    requires Shaped(s) && f < |s.list| && ShapedAt(s, f) && j < |s.list[f]|
  {
    !s.merged[f][j] && Finds(s, sym, s.list[f][j], s.checked)
  }

  ghost predicate SomeChildFinds(s: Files, sym: string, f: nat, i: nat)
    requires Shaped(s) && f < |s.list| && ShapedAt(s, f)
  {
    exists j :: i <= j < |s.list[f]| && ChildFinds(s, sym, f, j)
  }

  /** From f on, the search is that of its children. */
  lemma UnmarkedFinds(s: Files, sym: string, f: nat)
    requires CacheOk(s) && f < |s.list| && f !in s.checked && sym !in s.defs[f]
    ensures var s1 := s.(checked := s.checked + {f});
            Shaped(s1) && ShapedAt(s1, f) && (Finds(s, sym, f, s.checked) <==> SomeChildFinds(s1, sym, f, 0))
  {
    var s1 := s.(checked := s.checked + {f});
    forall g | 0 <= g < |s.list| ensures ShapedAt(s1, g) { assert ShapedAt(s, g); }
    if Finds(s, sym, f, s.checked) {
      var j := FindsBeyond(s, sym, f, s.checked);
      FindsAlike(s, s1, sym, s.list[f][j], s1.checked);
      assert ChildFinds(s1, sym, f, j);
    }
    if SomeChildFinds(s1, sym, f, 0) {
      var j :| 0 <= j < |s.list[f]| && ChildFinds(s1, sym, f, j);
      FindsAlike(s1, s, sym, s.list[f][j], s1.checked);
      FindsThrough(s, sym, f, s.checked, j);
    }
  }

  // ----- marks come and go -----

  lemma Remark(t: Files, c: set<nat>)
    requires CacheOk(t) && forall f | f in c :: f < |t.list|
    ensures CacheOk(t.(checked := c)) && Same(t, t.(checked := c))
  {
    var r := t.(checked := c);
    forall g | 0 <= g < |t.list| ensures ShapedAt(r, g) { assert ShapedAt(t, g); }
    forall g | 0 <= g < |t.list| ensures CacheOkAt(r, g) {
      assert CacheOkAt(t, g) && ShapedAt(t, g);
      forall j | 0 <= j < |r.list[g]| && r.merged[g][j] ensures AllMerged(r, r.list[g][j]) {
        assert AllMerged(t, t.list[g][j]);
      }
    }
    forall sym, f | 0 <= f < |t.list| ensures Finds(t, sym, f, {}) <==> Finds(r, sym, f, {}) {
      FindsAlike(t, r, sym, f, {});
      FindsAlike(r, t, sym, f, {});
    }
  }

  lemma Unmarking(s: Files, sym: string, f: nat, r: (Files, Option<nat>), found: bool)
    requires CacheOk(s) && f < |s.list| && f !in s.checked
    requires var s1 := s.(checked := s.checked + {f}); Shaped(s1) && SearchOk(s1, sym, s.checked, r, found)
    ensures SearchOk(s, sym, s.checked, (r.0.(checked := r.0.checked - {f}), r.1), found)
  {
    var s1 := s.(checked := s.checked + {f});
    var s2 := r.0.(checked := r.0.checked - {f});
    Remark(s, s1.checked);
    Remark(r.0, s2.checked);
    assert s2.checked == s.checked;
    SameThen(s, s1, r.0);
    SameThen(s, r.0, s2);
  }

  /** fdefined() finds the symbol exactly when some file that is reached without passing a marked
      one defines it. */
  lemma {:induction false} FDefinedFinds(s: Files, sym: string, f: nat)
    requires CacheOk(s) && f < |s.list| && NoneMarked(s, sym)
    ensures SearchOk(s, sym, s.checked, FDefined(s, sym, f), Finds(s, sym, f, s.checked))
    decreases |Unchecked(s)|, 0
  {
    if f in s.checked {
    } else if sym in s.defs[f] {
      assert PathTo(s, sym, f, s.checked, [f]);
    } else {
      var s1 := s.(checked := s.checked + {f});
      Remark(s, s1.checked);
      assert Unchecked(s1) == Unchecked(s) - {f};
      ChildrenFind(s1, sym, f, 0);
      var r := Children(s1, sym, f, 0);
      UnmarkedFinds(s, sym, f);
      Unmarking(s, sym, f, r, Finds(s, sym, f, s.checked));
    }
  }


  lemma {:induction false} ChildrenFind(s: Files, sym: string, f: nat, i: nat)
    requires CacheOk(s) && f < |s.list| && ShapedAt(s, f) && i <= |s.list[f]| && f in s.checked && NoneMarked(s, sym)
    ensures SearchOk(s, sym, s.checked - {f}, Children(s, sym, f, i), SomeChildFinds(s, sym, f, i))
    decreases |Unchecked(s)|, 1 + |s.list[f]| - i
  {
    if i == |s.list[f]| {
    } else if s.merged[f][i] {
      ChildrenFind(s, sym, f, i + 1);
      FirstOrLater(s, sym, f, i);
    } else {
      var c := s.list[f][i];
      FDefinedFinds(s, sym, c);
      var r := FDefined(s, sym, c);
      OneChild(s, sym, f, i, r);
      FirstOrLater(s, sym, f, i);
      if r.1.None? {
        var s' := Merge(r.0, f, i);
        ChildrenFind(s', sym, f, i + 1);
        LaterChildren(s, s', sym, f, i + 1);
        SearchThen(s, s', sym, s.checked - {f}, Children(s', sym, f, i + 1), SomeChildFinds(s', sym, f, i + 1));
      }
    }
  }

  lemma FirstOrLater(s: Files, sym: string, f: nat, i: nat)
    requires Shaped(s) && f < |s.list| && ShapedAt(s, f) && i < |s.list[f]|
    ensures SomeChildFinds(s, sym, f, i) <==> ChildFinds(s, sym, f, i) || SomeChildFinds(s, sym, f, i + 1)
  {
    if SomeChildFinds(s, sym, f, i) {
      var j :| i <= j < |s.list[f]| && ChildFinds(s, sym, f, j);
      assert j == i || j >= i + 1;
    }
  }

  /** The search of one child, and the merge that follows. */
  lemma OneChild(s: Files, sym: string, f: nat, i: nat, r: (Files, Option<nat>))
    requires CacheOk(s) && f < |s.list| && ShapedAt(s, f) && i < |s.list[f]| && f in s.checked && NoneMarked(s, sym)
    requires !s.merged[f][i] && SearchOk(s, sym, s.checked, r, Finds(s, sym, s.list[f][i], s.checked))
    ensures var s' := Merge(r.0, f, i);
            && SearchOk(s, sym, s.checked - {f}, (s', r.1), ChildFinds(s, sym, f, i))
            && ShapedAt(s', f) && (r.1.None? ==> NoneMarked(s', sym))
            && forall j | i < j < |s.list[f]| :: s'.merged[f][j] == s.merged[f][j]
  {
    var c := s.list[f][i];
    var s' := Merge(r.0, f, i);
    assert ShapedAt(r.0, f) && r.0.merged[f] == s.merged[f];
    MergeOk(r.0, f, i);
    SameThen(s, r.0, s');
    if r.1.None? && c !in s.checked && sym in s.defs[c] {
      assert PathTo(s, sym, c, s.checked, [c]);
      assert false;
    }
  }

  lemma LaterChildren(s: Files, s': Files, sym: string, f: nat, i: nat)
    requires Shaped(s) && Shaped(s') && s'.list == s.list && s'.checked == s.checked
    requires f < |s.list| && ShapedAt(s, f) && ShapedAt(s', f)
    requires forall j | i <= j < |s.list[f]| :: s'.merged[f][j] == s.merged[f][j]
    requires forall g | 0 <= g < |s.list| :: sym in s.defs[g] <==> sym in s'.defs[g]
    ensures SomeChildFinds(s, sym, f, i) <==> SomeChildFinds(s', sym, f, i)
  {
    forall j | i <= j < |s.list[f]| ensures ChildFinds(s, sym, f, j) <==> ChildFinds(s', sym, f, j) {
      FindsAlike(s, s', sym, s.list[f][j], s.checked);
      FindsAlike(s', s, sym, s.list[f][j], s.checked);
    }
    if SomeChildFinds(s, sym, f, i) {
      var j :| i <= j < |s.list[f]| && ChildFinds(s, sym, f, j);
      assert ChildFinds(s', sym, f, j);
    }
    if SomeChildFinds(s', sym, f, i) {
      var j :| i <= j < |s.list[f]| && ChildFinds(s', sym, f, j);
      assert ChildFinds(s, sym, f, j);
    }
  }

  lemma SearchThen(s: Files, s': Files, sym: string, m: set<nat>, r: (Files, Option<nat>), found: bool)
    requires Shaped(s) && Shaped(s') && SearchOk(s, sym, m, (s', None), false) && SearchOk(s', sym, m, r, found)
    ensures SearchOk(s, sym, m, r, found)
  {
    SameThen(s, s', r.0);
  }

  /** The cache is transparent: with nothing marked, a symbol is found exactly when a file that is
      reached defines it; the marks are restored, the cache stays sound, and no symbol is found
      from any file that was not found from it before, nor lost. */
  lemma LookupIsReachability(s: Files, sym: string, f: nat)
    requires CacheOk(s) && f < |s.list| && s.checked == {}
    ensures var r := FDefined(s, sym, f);
            && (r.1.Some? <==> Finds(s, sym, f, {}))
            && (r.1.Some? ==> r.1.value < |s.list| && sym in r.0.defs[r.1.value])
            && r.0.checked == {} && CacheOk(r.0) && Same(s, r.0)
  {
    FDefinedFinds(s, sym, f);
  }
}
