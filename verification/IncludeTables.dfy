/** fdefined() and merge2defines() as they work in place on the files' records: the sorted tables,
    the `merged` flags and the DEFCHECKED marks. */
module IncludeTables {
  import opened Options
  import opened IncludeCache
  import opened SymTables

  ghost function AsMaps(defs: seq<seq<Entry>>): seq<map<string, string>> {
    seq(|defs|, f requires 0 <= f < |defs| => AsMap(defs[f]))
  }

  lemma OneTable(defs: seq<seq<Entry>>, f: nat, t: seq<Entry>)
    requires f < |defs|
    ensures AsMaps(defs[f := t]) == AsMaps(defs)[f := AsMap(t)]
  {
  }

  /** A file that is not marked and does not have the symbol leaves the search to its children. */
  lemma SearchesChildren(s: Files, sym: string, f: nat)
    requires Shaped(s) && f < |s.list| && f !in s.checked && sym !in s.defs[f]
    ensures var s1 := s.(checked := s.checked + {f});
            && Shaped(s1) && ShapedAt(s1, f) && Unchecked(s1) == Unchecked(s) - {f} && f in Unchecked(s)
            && var r := IncludeCache.Children(s1, sym, f, 0);
            && Shaped(r.0.(checked := s.checked))
            && IncludeCache.FDefined(s, sym, f) == (r.0.(checked := s.checked), r.1)
  {
    var s1 := s.(checked := s.checked + {f});
    forall g | 0 <= g < |s.list| ensures ShapedAt(s1, g) { assert ShapedAt(s, g); }
    var r := IncludeCache.Children(s1, sym, f, 0);
    assert r.0.checked - {f} == s.checked;
    forall g | 0 <= g < |s.list| ensures ShapedAt(r.0.(checked := s.checked), g) { assert ShapedAt(r.0, g); }
  }

  /** One turn of the loop over the children. */
  lemma OneChildOn(s: Files, sym: string, f: nat, i: nat)
    requires Shaped(s) && f < |s.list| && i < |s.list[f]| && f in s.checked
    ensures ShapedAt(s, f)
    ensures s.merged[f][i] ==> IncludeCache.Children(s, sym, f, i) == IncludeCache.Children(s, sym, f, i + 1)
    ensures !s.merged[f][i] ==>
              var r := IncludeCache.FDefined(s, sym, s.list[f][i]);
              IncludeCache.Children(s, sym, f, i) ==
              if r.1.Some? then (Merge(r.0, f, i), r.1) else IncludeCache.Children(Merge(r.0, f, i), sym, f, i + 1)
  {
    assert ShapedAt(s, f);
  }

  class Includes {
    var list: seq<seq<nat>>
    var defs: seq<seq<Entry>>
    var merged: seq<seq<bool>>
    var finished: seq<bool>
    var defchecked: seq<bool>

    /** The records as values; a table is the mapping that it stands for. */
    ghost function View(): Files
      reads this
    {
      Files(list, AsMaps(defs), merged, finished, set f: nat | f < |defchecked| && defchecked[f])
    }

    ghost predicate Valid()
      reads this
    {
      |defchecked| == |list| == |defs| && Shaped(View()) && forall f | 0 <= f < |defs| :: Sorted(defs[f])
    }

    /** merge2defines(): the child's table goes into the parent's, if the child has nothing left to
        merge. */
    method Merge2Defines(f: nat, c: nat) returns (done: bool)
      requires Valid() && f < |list| && c < |list|
      modifies this`defs
      ensures Valid()
      ensures done == (finished[c] && AllMerged(old(View()), c))
      ensures View() == old(View()).(defs := if done then old(View()).defs[f := old(View()).defs[f] + old(View()).defs[c]]
                                             else old(View()).defs)
    {
      ghost var s := View();
      if !finished[c] { return false; }
      assert ShapedAt(s, c);
      var i := 0;
      while i < |list[c]|
        invariant 0 <= i <= |list[c]| == |merged[c]|
        invariant forall k | 0 <= k < i :: merged[c][k]
      {
        if !merged[c][i] { return false; }
        i := i + 1;
      }
      var t := Merge2(defs[f], defs[c]);
      OneTable(defs, f, t);
      defs := defs[f := t];
      assert forall g | 0 <= g < |s.list| :: ShapedAt(s, g) ==> ShapedAt(View(), g);
      return true;
    }

    /** fdefined(): the file and the place in its table where the symbol is. */
    method FDefined(sym: string, f: nat) returns (src: Option<nat>)
      requires Valid() && f < |list| && IsName(sym)
      modifies this`defs, this`merged, this`defchecked
      ensures Valid()
      ensures (View(), src) == IncludeCache.FDefined(old(View()), sym, f)
      decreases |Unchecked(View())|, 0
    {
      ghost var s := View();
      if defchecked[f] { return None; }
      var at := SLookup(defs[f], sym);
      if at >= 0 { return Some(f); }
      SearchesChildren(s, sym, f);
      ghost var s1 := s.(checked := s.checked + {f});
      defchecked := defchecked[f := true];
      assert View() == s1;
      src := Children(sym, f);
      ghost var r := View();
      defchecked := defchecked[f := false];
      assert View().checked == s.checked;
      assert View() == r.(checked := s.checked);
    }

    /** The loop over the files that f includes. */
    method Children(sym: string, f: nat) returns (src: Option<nat>)
      requires Valid() && f < |list| && defchecked[f] && IsName(sym)
      modifies this`defs, this`merged, this`defchecked
      ensures Valid()
      ensures (View(), src) == IncludeCache.Children(old(View()), sym, f, 0)
      decreases |Unchecked(View())|, 1
    {
      hide IncludeCache.Children, IncludeCache.FDefined, AsMaps, Sorted;
      ghost var s0 := View();
      var i := 0;
      while i < |list[f]|
        invariant Valid() && f in View().checked && Unchecked(View()) == Unchecked(s0)
        invariant 0 <= i <= |list[f]| && list == old(list)
        invariant IncludeCache.Children(View(), sym, f, i) == IncludeCache.Children(s0, sym, f, 0)
        decreases |list[f]| - i
      {
        OneChildOn(View(), sym, f, i);
        if !merged[f][i] {
          src := FDefined(sym, list[f][i]);
          ghost var s := View();
          assert ShapedAt(s, f);
          var done := Merge2Defines(f, list[f][i]);
          merged := merged[f := merged[f][i := done]];
          assert View() == Merge(s, f, i);
          if src.Some? { return; }
        }
        i := i + 1;
      }
      src := None;
      NoChildren(View(), sym, f, i);
    }
  }

  lemma NoChildren(s: Files, sym: string, f: nat, i: nat)
    requires Shaped(s) && f < |s.list| && i == |s.list[f]| && f in s.checked
    ensures IncludeCache.Children(s, sym, f, i) == (s, None)
  {
  }
}
