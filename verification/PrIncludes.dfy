/** recursive_pr_include(): one dependency for every file that a source file includes, directly or
    not. */
module PrIncludes {
  import opened IncludeCache

  /** The marks, and the files printed so far. */
  datatype Output = Output(marked: set<nat>, printed: seq<nat>)

  ghost predicate Listed(list: seq<seq<nat>>) {
    forall f | 0 <= f < |list| :: ListedAt(list, f)
  }

  ghost predicate ListedAt(list: seq<seq<nat>>, f: nat)
    requires f < |list|
  {
    forall i | 0 <= i < |list[f]| :: list[f][i] < |list|
  }

  ghost function Unmarked(list: seq<seq<nat>>, o: Output): set<nat> {
    set f: nat | f < |list| && f !in o.marked
  }

  ghost function Printed(list: seq<seq<nat>>, head: nat, root: nat, o: Output): (r: Output)
    requires Listed(list) && head < |list|
    ensures o.marked <= r.marked
    decreases |Unmarked(list, o)|, 0
  {
    if head in o.marked then o
    else
      var o1 := Output(o.marked + {head}, if head != root then o.printed + [head] else o.printed);
      assert Unmarked(list, o1) == Unmarked(list, o) - {head} && head in Unmarked(list, o);
      PrintedAll(list, head, 0, root, o1)
  }

  /** The files that `head` includes, from the i-th on. */
  ghost function PrintedAll(list: seq<seq<nat>>, head: nat, i: nat, root: nat, o: Output): (r: Output)
    requires Listed(list) && head < |list| && i <= |list[head]|
    ensures o.marked <= r.marked
    decreases |Unmarked(list, o)|, 1 + |list[head]| - i
  {
    assert ListedAt(list, head);
    if i == |list[head]| then o
    else
      var o1 := Printed(list, list[head][i], root, o);
      Fewer(list, o, o1);
      PrintedAll(list, head, i + 1, root, o1)
  }

  lemma Fewer(list: seq<seq<nat>>, o: Output, o1: Output)
    requires o.marked <= o1.marked
    ensures |Unmarked(list, o1)| <= |Unmarked(list, o)|
  {
    var a, b := Unmarked(list, o1), Unmarked(list, o);
    assert a <= b;
    assert b == a + (b - a);
  }

  // ----- in place -----

  class Printer {
    const list: seq<seq<nat>>
    var marked: seq<bool>
    var printed: seq<nat>

    ghost predicate Valid()
      reads this
    {
      Listed(list) && |marked| == |list|
    }

    ghost function View(): Output
      reads this
    {
      Output((set f: nat | f < |marked| && marked[f]), printed)
    }

    constructor (list: seq<seq<nat>>)
      requires Listed(list)
      ensures Valid() && this.list == list && View() == Output({}, [])
    {
      this.list := list;
      marked := seq(|list|, _ => false);
      printed := [];
    }

    method RecursivePrInclude(head: nat, root: nat)
      requires Valid() && head < |list|
      modifies this
      ensures Valid() && View() == Printed(list, head, root, old(View()))
      decreases |Unmarked(list, View())|
    {
      ghost var o := View();
      if marked[head] { return; }
      marked := marked[head := true];
      if head != root { printed := printed + [head]; }
      ghost var o1 := Output(o.marked + {head}, printed);
      assert View() == o1;
      assert Unmarked(list, o1) == Unmarked(list, o) - {head} && head in Unmarked(list, o);
      var i := 0;
      while i < |list[head]|
        invariant Valid() && 0 <= i <= |list[head]| && o1.marked <= View().marked
        invariant PrintedAll(list, head, i, root, View()) == PrintedAll(list, head, 0, root, o1)
      {
        assert ListedAt(list, head);
        Fewer(list, o1, View());
        RecursivePrInclude(list[head][i], root);
        i := i + 1;
      }
    }
  }

  // ----- what is printed -----

  /** Some way along the includes leads from f to g. */
  ghost predicate Reaches(list: seq<seq<nat>>, f: nat, g: nat) {
    exists p :: PathFromTo(list, p, f, g)
  }

  ghost predicate PathFromTo(list: seq<seq<nat>>, p: seq<nat>, f: nat, g: nat) {
    Path(list, p) && p[0] == f && p[|p| - 1] == g
  }

  lemma ReachesOn(list: seq<seq<nat>>, f: nat, c: nat, g: nat)
    requires f < |list| && c in list[f] && Reaches(list, c, g)
    ensures Reaches(list, f, g)
  {
    var p :| PathFromTo(list, p, c, g);
    assert ([f] + p)[1..] == p;
    assert PathFromTo(list, [f] + p, f, g);
  }

  ghost predicate Distinct(s: seq<nat>) {
    forall i, j | 0 <= i < j < |s| :: s[i] != s[j]
  }

  /** What is marked on the way from o to r is marked because f reaches it; all of it but the root is
      printed, each file once, and nothing else; and what it includes is marked, too, except for
      the file `open` that is still at work. */
  ghost predicate Adds(list: seq<seq<nat>>, f: nat, root: nat, o: Output, r: Output, out: seq<nat>, open: set<nat>) {
    && o.marked <= r.marked && r.printed == o.printed + out && Distinct(out)
    && (forall g | g in r.marked - o.marked :: g < |list| && Reaches(list, f, g))
    && (forall g :: g in out <==> g in r.marked - o.marked - {root})
    && (forall g, c | g in r.marked - o.marked && g < |list| && g !in open && c in list[g] :: c in r.marked)
  }

  lemma AddsThen(list: seq<seq<nat>>, f: nat, root: nat, o: Output, m: Output, r: Output, a: seq<nat>, b: seq<nat>, open: set<nat>)
    requires Adds(list, f, root, o, m, a, open) && Adds(list, f, root, m, r, b, {})
    ensures Adds(list, f, root, o, r, a + b, open)
  {
    forall g | g in r.marked - o.marked ensures g < |list| && Reaches(list, f, g) {
      assert g in m.marked - o.marked || g in r.marked - m.marked;
    }
    forall i, j | 0 <= i < j < |a + b| ensures (a + b)[i] != (a + b)[j] {
      if i < |a| && j >= |a| {
        assert a[i] in a && b[j - |a|] in b;
      }
    }
  }

  lemma AddsFrom(list: seq<seq<nat>>, f: nat, c: nat, root: nat, o: Output, r: Output, out: seq<nat>)
    requires f < |list| && c in list[f] && Adds(list, c, root, o, r, out, {})
    ensures Adds(list, f, root, o, r, out, {})
  {
    forall g | g in r.marked - o.marked ensures Reaches(list, f, g) { ReachesOn(list, f, c, g); }
  }

  lemma {:induction false} PrintedAdds(list: seq<seq<nat>>, head: nat, root: nat, o: Output) returns (out: seq<nat>)
    requires Listed(list) && head < |list|
    ensures Adds(list, head, root, o, Printed(list, head, root, o), out, {}) && head in Printed(list, head, root, o).marked
    decreases |Unmarked(list, o)|, 0
  {
    if head in o.marked {
      out := [];
    } else {
      var first := if head != root then [head] else [];
      var o1 := Output(o.marked + {head}, o.printed + first);
      assert o1.printed == if head != root then o.printed + [head] else o.printed;
      assert Unmarked(list, o1) == Unmarked(list, o) - {head} && head in Unmarked(list, o);
      assert PathFromTo(list, [head], head, head);
      assert Adds(list, head, root, o, o1, first, {head});
      out := PrintedAllAdds(list, head, 0, root, o1);
      AddsThen(list, head, root, o, o1, PrintedAll(list, head, 0, root, o1), first, out, {head});
      out := first + out;
    }
  }

  lemma {:induction false} PrintedAllAdds(list: seq<seq<nat>>, head: nat, i: nat, root: nat, o: Output) returns (out: seq<nat>)
    requires Listed(list) && head < |list| && i <= |list[head]|
    ensures Adds(list, head, root, o, PrintedAll(list, head, i, root, o), out, {})
    ensures forall j | i <= j < |list[head]| :: list[head][j] in PrintedAll(list, head, i, root, o).marked
    decreases |Unmarked(list, o)|, 1 + |list[head]| - i
  {
    assert ListedAt(list, head);
    if i == |list[head]| {
      out := [];
    } else {
      var c := list[head][i];
      var o1 := Printed(list, c, root, o);
      out := PrintedAdds(list, c, root, o);
      AddsFrom(list, head, c, root, o, o1, out);
      Fewer(list, o, o1);
      var more := PrintedAllAdds(list, head, i + 1, root, o1);
      AddsThen(list, head, root, o, o1, PrintedAll(list, head, i + 1, root, o1), out, more, {});
      out := out + more;
    }
  }

  /** Marks that are closed under includes hold all that is reached. */
  lemma {:induction false} MarkedHolds(list: seq<seq<nat>>, m: set<nat>, p: seq<nat>)
    requires Path(list, p) && p[0] in m && (forall g, c | g in m && g < |list| && c in list[g] :: c in m)
    ensures p[|p| - 1] in m
    decreases |p|
  {
    if |p| > 1 { MarkedHolds(list, m, p[1..]); }
  }

  /** Without any marks, every file that is reached from the root, other than the root, is printed
      exactly once, and nothing else is; circles do no harm. */
  lemma PrintsReachedOnce(list: seq<seq<nat>>, root: nat)
    requires Listed(list) && root < |list|
    ensures var out := Printed(list, root, root, Output({}, [])).printed;
            Distinct(out) && forall g :: g in out <==> Reaches(list, root, g) && g != root
  {
    var o := Output({}, []);
    var out := PrintedAdds(list, root, root, o);
    var r := Printed(list, root, root, o);
    assert r.printed == out;
    forall g | Reaches(list, root, g) ensures g in r.marked {
      var p :| PathFromTo(list, p, root, g);
      MarkedHolds(list, r.marked, p);
    }
  }

  // ----- in which order -----

  /** The k-th of the files printed is included by the one that the recursion began with, by the root, or
      by one printed before. */
  ghost predicate HasIncluder(list: seq<seq<nat>>, head: nat, root: nat, out: seq<nat>, k: nat)
    requires k < |out|
  {
    exists f :: (f == head || f == root || f in out[..k]) && f < |list| && out[k] in list[f]
  }

  ghost predicate AfterIncluders(list: seq<seq<nat>>, head: nat, root: nat, out: seq<nat>) {
    forall k | 0 <= k < |out| :: HasIncluder(list, head, root, out, k)
  }

  lemma OrderJoin(list: seq<seq<nat>>, head: nat, root: nat, a: seq<nat>, b: seq<nat>)
    requires AfterIncluders(list, head, root, a) && AfterIncluders(list, head, root, b)
    ensures AfterIncluders(list, head, root, a + b)
  {
    forall k | 0 <= k < |a + b| ensures HasIncluder(list, head, root, a + b, k) {
      if k < |a| {
        assert HasIncluder(list, head, root, a, k) && (a + b)[..k] == a[..k];
      } else {
        var i := k - |a|;
        assert HasIncluder(list, head, root, b, i) && (a + b)[..k] == a + b[..i];
      }
    }
  }

  /** A file that `head` includes, and what is printed on account of it. */
  lemma OrderOfChild(list: seq<seq<nat>>, head: nat, c: nat, root: nat, rest: seq<nat>)
    requires head < |list| && c in list[head] && AfterIncluders(list, c, root, rest)
    ensures AfterIncluders(list, head, root, (if c != root then [c] else []) + rest)
  {
    var first := if c != root then [c] else [];
    var out := first + rest;
    forall k | 0 <= k < |out| ensures HasIncluder(list, head, root, out, k) {
      if k >= |first| {
        var i := k - |first|;
        assert HasIncluder(list, c, root, rest, i) && out[..k] == first + rest[..i];
      } else {
        assert out[k] == c;
      }
    }
  }

  lemma {:induction false} PrintedOrder(list: seq<seq<nat>>, head: nat, root: nat, o: Output) returns (rest: seq<nat>)
    requires Listed(list) && head < |list|
    ensures AfterIncluders(list, head, root, rest)
    ensures head !in o.marked ==>
              Printed(list, head, root, o).printed == o.printed + ((if head != root then [head] else []) + rest)
    decreases |Unmarked(list, o)|, 0
  {
    rest := [];
    if head !in o.marked {
      var first := if head != root then [head] else [];
      var o1 := Output(o.marked + {head}, o.printed + first);
      assert o1.printed == if head != root then o.printed + [head] else o.printed;
      assert Unmarked(list, o1) == Unmarked(list, o) - {head} && head in Unmarked(list, o);
      rest := PrintedAllOrder(list, head, 0, root, o1);
    }
  }

  lemma {:induction false} PrintedAllOrder(list: seq<seq<nat>>, head: nat, i: nat, root: nat, o: Output) returns (out: seq<nat>)
    requires Listed(list) && head < |list| && i <= |list[head]|
    ensures AfterIncluders(list, head, root, out) && PrintedAll(list, head, i, root, o).printed == o.printed + out
    decreases |Unmarked(list, o)|, 1 + |list[head]| - i
  {
    assert ListedAt(list, head);
    out := [];
    if i < |list[head]| {
      var c := list[head][i];
      var o1 := Printed(list, c, root, o);
      var rest := PrintedOrder(list, c, root, o);
      Fewer(list, o, o1);
      out := PrintedAllOrder(list, head, i + 1, root, o1);
      if c !in o.marked {
        OrderOfChild(list, head, c, root, rest);
        OrderJoin(list, head, root, (if c != root then [c] else []) + rest, out);
        out := ((if c != root then [c] else []) + rest) + out;
      }
    }
  }

  /** Every file is printed behind one that includes it, unless the root does. */
  lemma PrintsBehindIncluder(list: seq<seq<nat>>, root: nat)
    requires Listed(list) && root < |list|
    ensures AfterIncluders(list, root, root, Printed(list, root, root, Output({}, [])).printed)
  {
    var rest := PrintedOrder(list, root, root, Output({}, []));
    assert [] + ([] + rest) == rest;
  }
}
