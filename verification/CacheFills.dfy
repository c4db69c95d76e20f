/** What the cache is for: among finished files that do not include each other in circles, one lookup that
    finds nothing merges everything, and the next one looks into one table only. */
module CacheFills {
  import opened Options
  import opened IncludeCache

  /** No circles: whatever a file includes ranks below it. */
  ghost predicate Ranked(list: seq<seq<nat>>, rank: nat -> nat) {
    forall f | 0 <= f < |list| :: forall c | c in list[f] :: rank(c) < rank(f)
  }

  ghost predicate AllFinished(s: Files) {
    forall f | 0 <= f < |s.finished| :: s.finished[f]
  }

  /** What is merged stays merged. */
  ghost predicate KeepsMerged(s: Files, r: Files) {
    && |r.merged| == |s.merged|
    && forall f | 0 <= f < |s.merged| ::
         |r.merged[f]| == |s.merged[f]| && forall i | 0 <= i < |s.merged[f]| && s.merged[f][i] :: r.merged[f][i]
  }

  lemma KeepsThen(s: Files, m: Files, r: Files)
    requires KeepsMerged(s, m) && KeepsMerged(m, r)
    ensures KeepsMerged(s, r)
  {
  }

  lemma MergeMerges(s: Files, f: nat, i: nat)
    requires Shaped(s) && f < |s.list| && i < |s.list[f]| && ShapedAt(s, f) && !s.merged[f][i]
    ensures KeepsMerged(s, Merge(s, f, i))
    ensures s.finished[s.list[f][i]] && AllMerged(s, s.list[f][i]) ==> Merge(s, f, i).merged[f][i]
  {
  }

  lemma {:induction false} Fills(s: Files, sym: string, f: nat, rank: nat -> nat)
    requires Shaped(s) && f < |s.list| && Ranked(s.list, rank) && AllFinished(s)
    requires forall g | g in s.checked :: rank(g) > rank(f)
    ensures var r := FDefined(s, sym, f);
            && KeepsMerged(s, r.0) && AllFinished(r.0) && (r.1.None? && f !in s.checked ==> AllMerged(r.0, f))
            && forall g | g in s.checked :: g < |s.list| && r.0.merged[g] == s.merged[g]
    decreases rank(f), 1, 0
  {
    if sym !in s.defs[f] {
      var s1 := s.(checked := s.checked + {f});
      assert forall g | 0 <= g < |s.list| :: ShapedAt(s, g) ==> ShapedAt(s1, g);
      FillsChildren(s1, sym, f, 0, rank);
    }
  }

  lemma {:induction false} FillsChildren(s: Files, sym: string, f: nat, i: nat, rank: nat -> nat)
    requires Shaped(s) && f < |s.list| && i <= |s.list[f]| && f in s.checked && Ranked(s.list, rank) && AllFinished(s)
    requires ShapedAt(s, f) && forall j | 0 <= j < i :: s.merged[f][j]
    requires forall g | g in s.checked :: rank(g) >= rank(f)
    ensures var r := Children(s, sym, f, i);
            && KeepsMerged(s, r.0) && AllFinished(r.0) && (r.1.None? ==> AllMerged(r.0, f))
            && forall g | g in s.checked && g != f :: g < |s.list| && r.0.merged[g] == s.merged[g]
    decreases rank(f), 0, |s.list[f]| - i
  {
    if i < |s.list[f]| {
      if s.merged[f][i] {
        FillsChildren(s, sym, f, i + 1, rank);
      } else {
        var c := s.list[f][i];
        var r := FDefined(s, sym, c);
        Fills(s, sym, c, rank);
        OneMerge(s, sym, f, i);
        if r.1.None? {
          var s' := Merge(r.0, f, i);
          FillsChildren(s', sym, f, i + 1, rank);
          KeepsThen(s, s', Children(s', sym, f, i + 1).0);
        }
      }
    }
  }

  /** The search in one child, and the merge behind it. */
  lemma OneMerge(s: Files, sym: string, f: nat, i: nat)
    requires Shaped(s) && f < |s.list| && i < |s.list[f]| && f in s.checked && AllFinished(s) && ShapedAt(s, f) && !s.merged[f][i]
    requires forall j | 0 <= j < i :: s.merged[f][j]
    requires var r := FDefined(s, sym, s.list[f][i]);
             && KeepsMerged(s, r.0) && AllFinished(r.0) && (r.1.None? ==> AllMerged(r.0, s.list[f][i]))
             && forall g | g in s.checked :: g < |s.list| && r.0.merged[g] == s.merged[g]
    ensures var r := FDefined(s, sym, s.list[f][i]);
            var s' := Merge(r.0, f, i);
            && KeepsMerged(s, s') && AllFinished(s') && ShapedAt(s', f) && s'.list == s.list && s'.checked == s.checked
            && (r.1.None? ==> forall j | 0 <= j < i + 1 :: s'.merged[f][j])
            && forall g | g in s.checked && g != f :: g < |s.list| && s'.merged[g] == s.merged[g]
  {
    var r := FDefined(s, sym, s.list[f][i]);
    assert ShapedAt(r.0, f);
    hide FDefined;
    assert r.0.merged[f] == s.merged[f];
    MergeMerges(r.0, f, i);
    KeepsThen(s, r.0, Merge(r.0, f, i));
  }

  /** Where everything is merged a lookup is one in the table. */
  lemma {:induction false} OneTable(s: Files, sym: string, f: nat, i: nat)
    requires Shaped(s) && f < |s.list| && ShapedAt(s, f) && AllMerged(s, f) && f in s.checked && i <= |s.list[f]|
    ensures Children(s, sym, f, i) == (s, None)
    decreases |s.list[f]| - i
  {
    if i < |s.list[f]| { OneTable(s, sym, f, i + 1); }
  }

  lemma TableLookup(s: Files, sym: string, f: nat)
    requires Shaped(s) && f < |s.list| && AllMerged(s, f) && f !in s.checked
    ensures FDefined(s, sym, f).1 == if sym in s.defs[f] then Some(f) else None
  {
    if sym !in s.defs[f] {
      var s1 := s.(checked := s.checked + {f});
      assert forall g | 0 <= g < |s.list| :: ShapedAt(s, g) ==> ShapedAt(s1, g);
      assert ShapedAt(s1, f);
      OneTable(s1, sym, f, 0);
    }
  }

  /** After a lookup that has found nothing every other symbol is looked up in the file's own table. */
  lemma NextLookup(s: Files, sym: string, other: string, f: nat, rank: nat -> nat)
    requires Shaped(s) && s.checked == {} && f < |s.list| && Ranked(s.list, rank) && AllFinished(s)
    requires FDefined(s, sym, f).1.None?
    ensures var r := FDefined(s, sym, f).0;
            FDefined(r, other, f).1 == if other in r.defs[f] then Some(f) else None
  {
    hide FDefined;
    Fills(s, sym, f, rank);
    TableLookup(FDefined(s, sym, f).0, other, f);
  }
}
