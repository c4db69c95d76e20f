/** A file's symbol table: an array kept sorted by name, searched by halving. */
module SymTables {

  /** A symbol record.  Names are C strings: no NUL inside. */
  datatype Entry = Entry(name: string, value: string)

  const NUL := '\0'

  predicate IsName(s: string) {
    forall k | 0 <= k < |s| :: s[k] != NUL
  }

  /** The k-th character of a C string. */
  function At(s: string, k: nat): char
    requires k <= |s|
  {
    if k < |s| then s[k] else NUL
  }

  /** strcmp(a, b) < 0 */
  predicate Less(a: string, b: string)
    decreases |a|
  {
    b != [] && (a == [] || a[0] < b[0] || (a[0] == b[0] && Less(a[1..], b[1..])))
  }

  lemma {:induction false} LessTrichotomy(a: string, b: string)
    ensures a == b <==> !Less(a, b) && !Less(b, a)
    ensures !(Less(a, b) && Less(b, a))
    decreases |a|
  {
    if a != [] && b != [] && a[0] == b[0] {
      LessTrichotomy(a[1..], b[1..]);
      assert a == [a[0]] + a[1..] && b == [b[0]] + b[1..];
    }
  }

  lemma {:induction false} LessTransitive(a: string, b: string, c: string)
    requires Less(a, b) && Less(b, c)
    ensures Less(a, c)
    decreases |a|
  {
    if a != [] && a[0] == b[0] == c[0] { LessTransitive(a[1..], b[1..], c[1..]); }
  }

  /** Names that agree up to k compare as their characters there do. */
  lemma {:induction false} LessAt(a: string, b: string, k: nat)
    requires IsName(a) && IsName(b) && k <= |a| && k <= |b| && a[..k] == b[..k] && At(a, k) != At(b, k)
    ensures Less(a, b) <==> At(a, k) < At(b, k)
    decreases k
  {
    if k > 0 {
      assert a[1..][..k - 1] == a[..k][1..] && b[1..][..k - 1] == b[..k][1..];
      assert a[0] == a[..k][0] == b[..k][0] == b[0];
      LessAt(a[1..], b[1..], k - 1);
    }
  }

  /** The inline comparison: negative, zero or positive. */
  method Compare(a: string, b: string) returns (c: int)
    requires IsName(a) && IsName(b)
    ensures c == 0 <==> a == b
    ensures c > 0 <==> Less(b, a)
    ensures c < 0 <==> Less(a, b)
  {
    LessTrichotomy(a, b);
    var k := 0;
    while At(a, k) == At(b, k)
      invariant k <= |a| && k <= |b| && a[..k] == b[..k]
      decreases |a| - k
    {
      if At(b, k) == NUL {
        assert a == a[..k] == b[..k] == b;
        return 0;
      }
      k := k + 1;
    }
    LessAt(a, b, k);
    LessAt(b, a, k);
    assert a != b;
    return if At(a, k) > At(b, k) then 1 else -1;
  }

  // ----- tables -----

  ghost predicate Sorted(t: seq<Entry>) {
    (forall i | 0 <= i < |t| :: IsName(t[i].name)) && forall i, j | 0 <= i < j < |t| :: Less(t[i].name, t[j].name)
  }

  /** The mapping that a table stands for. */
  ghost function AsMap(t: seq<Entry>): map<string, string> {
    if t == [] then map[] else AsMap(t[..|t| - 1])[t[|t| - 1].name := t[|t| - 1].value]
  }

  lemma {:induction false} AsMapHas(t: seq<Entry>, name: string)
    ensures name in AsMap(t) <==> exists i :: 0 <= i < |t| && t[i].name == name
    decreases |t|
  {
    if t != [] {
      var u := t[..|t| - 1];
      AsMapHas(u, name);
      if i :| 0 <= i < |t| && t[i].name == name {
        assert i == |t| - 1 || u[i].name == name;
      }
      if j :| 0 <= j < |u| && u[j].name == name { assert t[j].name == name; }
    }
  }

  lemma {:induction false} AsMapAt(t: seq<Entry>, i: nat)
    requires Sorted(t) && i < |t|
    ensures t[i].name in AsMap(t) && AsMap(t)[t[i].name] == t[i].value
    decreases |t|
  {
    if i < |t| - 1 {
      var u := t[..|t| - 1];
      AsMapAt(u, i);
      LessTrichotomy(t[i].name, t[|t| - 1].name);
    }
  }

  /** Sorted tables with the same symbols and values stand for the same mapping. */
  lemma AsMapIs(t: seq<Entry>, m: map<string, string>)
    requires Sorted(t)
    requires forall i | 0 <= i < |t| :: t[i].name in m && m[t[i].name] == t[i].value
    requires forall name | name in m :: exists i :: 0 <= i < |t| && t[i].name == name
    ensures AsMap(t) == m
  {
    hide AsMap, Sorted;
    forall name | name in AsMap(t) ensures name in m && m[name] == AsMap(t)[name] {
      AsMapHas(t, name);
      var i :| 0 <= i < |t| && t[i].name == name;
      AsMapAt(t, i);
    }
    forall name | name in m ensures name in AsMap(t) { AsMapHas(t, name); }
  }

  // ----- searching -----

  method SLookup(t: seq<Entry>, symbol: string) returns (at: int)
    requires Sorted(t) && IsName(symbol)
    ensures -1 <= at < |t|
    ensures at >= 0 ==> t[at].name == symbol && symbol in AsMap(t) && AsMap(t)[symbol] == t[at].value
    ensures at == -1 ==> symbol !in AsMap(t)
  {
    var first, last := 0, |t| - 1;
    while last >= first
      invariant 0 <= first <= last + 1 <= |t|
      invariant forall i | 0 <= i < first :: Less(t[i].name, symbol)
      invariant forall i | last < i < |t| :: Less(symbol, t[i].name)
    {
      var middle := (first + last) / 2;
      var c := Compare(symbol, t[middle].name);
      if c == 0 {
        AsMapAt(t, middle);
        return middle;
      }
      AllBelow(t, symbol, middle);
      if c > 0 { first := middle + 1; } else { last := middle - 1; }
    }
    NotThere(t, symbol, first);
    return -1;
  }

  lemma AllBelow(t: seq<Entry>, symbol: string, middle: nat)
    requires Sorted(t) && middle < |t|
    ensures Less(t[middle].name, symbol) ==> forall i | 0 <= i <= middle :: Less(t[i].name, symbol)
    ensures Less(symbol, t[middle].name) ==> forall i | middle <= i < |t| :: Less(symbol, t[i].name)
  {
    forall i | 0 <= i < middle && Less(t[middle].name, symbol) ensures Less(t[i].name, symbol) {
      LessTransitive(t[i].name, t[middle].name, symbol);
    }
    forall i | middle < i < |t| && Less(symbol, t[middle].name) ensures Less(symbol, t[i].name) {
      LessTransitive(symbol, t[middle].name, t[i].name);
    }
  }

  lemma NotThere(t: seq<Entry>, symbol: string, first: nat)
    requires first <= |t|
    requires forall i | 0 <= i < first :: Less(t[i].name, symbol)
    requires forall i | first <= i < |t| :: Less(symbol, t[i].name)
    ensures symbol !in AsMap(t)
  {
    AsMapHas(t, symbol);
    forall i | 0 <= i < |t| ensures t[i].name != symbol { LessTrichotomy(t[i].name, symbol); }
  }

  // ----- defining -----

  /** define2(): replace the value of a symbol that is there, or make room for a new one behind
      `below`. */
  method Define2(t: seq<Entry>, name: string, val: string) returns (r: seq<Entry>)
    requires Sorted(t) && IsName(name)
    ensures Sorted(r) && AsMap(r) == AsMap(t)[name := val]
  {
    var below, first, last := 0, 0, |t| - 1;
    while last >= first
      invariant 0 <= first <= last + 1 <= |t|
      invariant if |t| == 0 then below == 0 else last < first ==> below + 1 == first
      invariant forall i | 0 <= i < first :: Less(t[i].name, name)
      invariant forall i | last < i < |t| :: Less(name, t[i].name)
    {
      var middle := (first + last) / 2;
      var c := Compare(name, t[middle].name);
      if c == 0 {
        r := t[middle := t[middle].(value := val)];
        Redefined(t, r, middle, val);
        return;
      }
      AllBelow(t, name, middle);
      if c > 0 {
        below := first;
        first := middle + 1;
      } else {
        last := middle - 1;
        below := last;
      }
    }
    NotThere(t, name, first);
    r := MakeRoom(t, below, Entry(name, val));
    MovedIs(t, r, first, Entry(name, val));
    Inserted(t, r, first, Entry(name, val));
  }

  /** All records from `at` on are one place further on, and `e` is there. */
  predicate Moved<T(==)>(t: seq<T>, r: seq<T>, at: nat, e: T) {
    && at <= |t| && |r| == |t| + 1 && r[at] == e
    && (forall i | 0 <= i < at :: r[i] == t[i])
    && (forall i | at < i < |r| :: r[i] == t[i - 1])
  }

  lemma MovedIs<T>(t: seq<T>, r: seq<T>, at: nat, e: T)
    requires Moved(t, r, at, e)
    ensures r == t[..at] + [e] + t[at..]
  {
  }

  /** Make room for a new record, from the end of the table down to the place behind `below`. */
  method MakeRoom(t: seq<Entry>, below: int, e: Entry) returns (r: seq<Entry>)
    requires -1 <= below < |t| || below == 0
    ensures var at := if t == [] then 0 else below + 1; Moved(t, r, at, e)
  {
    var sp := |t|;
    r := t + [e];
    while sp > below + 1
      invariant (t == [] || below + 1 <= sp) && 0 <= sp <= |t| && |r| == |t| + 1
      invariant forall i | 0 <= i < sp :: r[i] == t[i]
      invariant forall i | sp < i < |r| :: r[i] == t[i - 1]
    {
      r := r[sp := r[sp - 1]];
      sp := sp - 1;
    }
    r := r[sp := e];
  }

  lemma Redefined(t: seq<Entry>, r: seq<Entry>, i: nat, val: string)
    requires Sorted(t) && i < |t| && r == t[i := t[i].(value := val)]
    ensures Sorted(r) && AsMap(r) == AsMap(t)[t[i].name := val]
  {
    var m := AsMap(t)[t[i].name := val];
    forall k | 0 <= k < |r| ensures r[k].name in m && m[r[k].name] == r[k].value {
      AsMapAt(t, k);
      if k < i { LessTrichotomy(t[k].name, t[i].name); } else if k > i { LessTrichotomy(t[i].name, t[k].name); }
    }
    forall name | name in m ensures exists k :: 0 <= k < |r| && r[k].name == name {
      AsMapHas(t, name);
      if name == t[i].name { assert r[i].name == name; }
      else {
        var k :| 0 <= k < |t| && t[k].name == name;
        assert r[k].name == name;
      }
    }
    AsMapIs(r, m);
  }

  lemma InsertedSorted(t: seq<Entry>, r: seq<Entry>, at: nat, e: Entry)
    requires Sorted(t) && IsName(e.name) && at <= |t| && r == t[..at] + [e] + t[at..]
    requires forall i | 0 <= i < at :: Less(t[i].name, e.name)
    requires forall i | at <= i < |t| :: Less(e.name, t[i].name)
    ensures Sorted(r)
  {
    hide Less, IsName;
    forall i, j | 0 <= i < j < |r| ensures Less(r[i].name, r[j].name) {
      assert i < at ==> r[i] == t[i];
      assert j < at ==> r[j] == t[j];
      assert i > at ==> r[i] == t[i - 1];
      assert j > at ==> r[j] == t[j - 1];
    }
  }

  lemma InsertedMap(t: seq<Entry>, r: seq<Entry>, at: nat, e: Entry)
    requires Sorted(t) && Sorted(r) && at <= |t| && |r| == |t| + 1 && e.name !in AsMap(t)
    requires r[at] == e && forall k | 0 <= k < |t| :: r[if k < at then k else k + 1] == t[k]
    ensures AsMap(r) == AsMap(t)[e.name := e.value]
  {
    hide AsMap, Less, Sorted, IsName;
    var m := AsMap(t)[e.name := e.value];
    forall k | 0 <= k < |r| ensures r[k].name in m && m[r[k].name] == r[k].value {
      if k != at {
        var i := if k < at then k else k - 1;
        assert r[if i < at then i else i + 1] == t[i];
        AsMapAt(t, i);
      }
    }
    forall name | name in m ensures exists k :: 0 <= k < |r| && r[k].name == name {
      if name == e.name { assert r[at].name == name; }
      else {
        AsMapHas(t, name);
        var k :| 0 <= k < |t| && t[k].name == name;
        assert r[if k < at then k else k + 1].name == name;
      }
    }
    AsMapIs(r, m);
  }

  lemma Inserted(t: seq<Entry>, r: seq<Entry>, at: nat, e: Entry)
    requires Sorted(t) && IsName(e.name) && at <= |t| && r == t[..at] + [e] + t[at..]
    requires forall i | 0 <= i < at :: Less(t[i].name, e.name)
    requires forall i | at <= i < |t| :: Less(e.name, t[i].name)
    ensures Sorted(r) && AsMap(r) == AsMap(t)[e.name := e.value]
  {
    hide AsMap, Less, Sorted, IsName;
    NotThere(t, e.name, at);
    InsertedSorted(t, r, at, e);
    InsertedIndex(t, r, at, e);
    InsertedMap(t, r, at, e);
  }

  lemma InsertedIndex<T>(t: seq<T>, r: seq<T>, at: nat, e: T)
    requires at <= |t| && r == t[..at] + [e] + t[at..]
    ensures |r| == |t| + 1 && r[at] == e && forall k | 0 <= k < |t| :: r[if k < at then k else k + 1] == t[k]
  {
  }

  // ----- removing -----

  /** The loop of undefine() that closes the gap. */
  method RemoveAt(t: seq<Entry>, at: nat) returns (r: seq<Entry>)
    requires Sorted(t) && at < |t|
    ensures Sorted(r) && AsMap(r) == AsMap(t) - {t[at].name}
  {
    var n := |t| - 1;
    var ptr := at;
    r := t;
    while ptr < n
      invariant at <= ptr <= n && |r| == |t|
      invariant forall i | 0 <= i < |t| && (i < at || i >= ptr) :: r[i] == t[i]
      invariant forall i | at <= i < ptr :: r[i] == t[i + 1]
    {
      r := r[ptr := r[ptr + 1]];
      ptr := ptr + 1;
    }
    r := r[..n];
    Removed(t, r, at);
  }

  lemma RemovedSorted(t: seq<Entry>, r: seq<Entry>, at: nat)
    requires Sorted(t) && at < |t| && r == t[..at] + t[at + 1..]
    ensures Sorted(r)
  {
    hide Less, IsName;
    forall i, j | 0 <= i < j < |r| ensures Less(r[i].name, r[j].name) {
      assert i < at ==> r[i] == t[i];
      assert j < at ==> r[j] == t[j];
      assert i >= at ==> r[i] == t[i + 1];
      assert j >= at ==> r[j] == t[j + 1];
    }
  }

  lemma Removed(t: seq<Entry>, r: seq<Entry>, at: nat)
    requires Sorted(t) && at < |t| && r == t[..at] + t[at + 1..]
    ensures Sorted(r) && AsMap(r) == AsMap(t) - {t[at].name}
  {
    var m := AsMap(t) - {t[at].name};
    RemovedSorted(t, r, at);
    hide AsMap, Less, IsName;
    forall k | 0 <= k < |r| ensures r[k].name in m && m[r[k].name] == r[k].value {
      var i := if k < at then k else k + 1;
      AsMapAt(t, i);
      LessTrichotomy(t[i].name, t[at].name);
    }
    forall name | name in m ensures exists k :: 0 <= k < |r| && r[k].name == name {
      AsMapHas(t, name);
      var i :| 0 <= i < |t| && t[i].name == name;
      assert r[if i < at then i else i - 1].name == name;
    }
    AsMapIs(r, m);
  }

  // ----- merging -----

  lemma SortedNames(t: seq<Entry>, i: nat)
    requires Sorted(t) && i < |t|
    ensures IsName(t[i].name)
  {
  }

  /** The merge loops of merge2defines(): where both tables have a name, the second one's record
      is taken. */
  method Merge2(t1: seq<Entry>, t2: seq<Entry>) returns (r: seq<Entry>)
    requires Sorted(t1) && Sorted(t2)
    ensures Sorted(r) && AsMap(r) == AsMap(t1) + AsMap(t2)
  {
    hide *;
    var first1, first2 := 0, 0;
    r := [];
    MergingBegins(t1, t2);
    while first1 < |t1| && first2 < |t2|
      invariant 0 <= first1 <= |t1| && 0 <= first2 <= |t2|
      invariant Merging(t1, t2, r, first1, first2)
    {
      SortedNames(t1, first1);
      SortedNames(t2, first2);
      var c := Compare(t1[first1].name, t2[first2].name);
      if c < 0 {
        TakesFirst(t1, t2, r, first1, first2);
        r := r + [t1[first1]];
        first1 := first1 + 1;
      } else if c > 0 {
        TakesSecond(t1, t2, r, first1, first2);
        r := r + [t2[first2]];
        first2 := first2 + 1;
      } else {
        TakesBoth(t1, t2, r, first1, first2);
        r := r + [t2[first2]];
        first1, first2 := first1 + 1, first2 + 1;
      }
    }
    while first1 < |t1|
      invariant 0 <= first1 <= |t1| && 0 <= first2 <= |t2| && (first1 < |t1| ==> first2 == |t2|)
      invariant Merging(t1, t2, r, first1, first2)
    {
      TakesFirst(t1, t2, r, first1, first2);
      r := r + [t1[first1]];
      first1 := first1 + 1;
    }
    while first2 < |t2|
      invariant first1 == |t1| && 0 <= first2 <= |t2|
      invariant Merging(t1, t2, r, first1, first2)
    {
      TakesSecond(t1, t2, r, first1, first2);
      r := r + [t2[first2]];
      first2 := first2 + 1;
    }
    MergingEnds(t1, t2, r);
  }

  lemma MergingBegins(t1: seq<Entry>, t2: seq<Entry>)
    requires Sorted(t1) && Sorted(t2)
    ensures Merging(t1, t2, [], 0, 0)
  {
  }

  /** Every record of r comes before what t holds from the i-th place on. */
  ghost predicate AllBefore(r: seq<Entry>, t: seq<Entry>, i: nat) {
    forall k, l | 0 <= k < |r| && i <= l < |t| :: Less(r[k].name, t[l].name)
  }

  /** The first `i` records of t1 and the first `j` of t2 are merged into r; the others come later. */
  ghost predicate Merging(t1: seq<Entry>, t2: seq<Entry>, r: seq<Entry>, i: nat, j: nat)
    requires i <= |t1| && j <= |t2|
  {
    && Sorted(r) && AsMap(r) == AsMap(t1[..i]) + AsMap(t2[..j])
    && AllBefore(r, t1, i) && AllBefore(r, t2, j)
  }

  lemma MergingEnds(t1: seq<Entry>, t2: seq<Entry>, r: seq<Entry>)
    requires Merging(t1, t2, r, |t1|, |t2|)
    ensures Sorted(r) && AsMap(r) == AsMap(t1) + AsMap(t2)
  {
    assert t1[..|t1|] == t1 && t2[..|t2|] == t2;
  }

  lemma AsMapSnoc(t: seq<Entry>, i: nat)
    requires i < |t|
    ensures AsMap(t[..i + 1]) == AsMap(t[..i])[t[i].name := t[i].value]
  {
    assert t[..i + 1][..i] == t[..i];
  }

  lemma SortedSnoc(r: seq<Entry>, e: Entry)
    requires Sorted(r) && IsName(e.name) && forall k | 0 <= k < |r| :: Less(r[k].name, e.name)
    ensures Sorted(r + [e]) && AsMap(r + [e]) == AsMap(r)[e.name := e.value]
  {
    assert (r + [e])[..|r|] == r;
  }

  lemma BeforeSnoc(r: seq<Entry>, e: Entry, t: seq<Entry>, i: nat, i': nat)
    requires Sorted(t) && i <= i' <= |t| && AllBefore(r, t, i)
    requires i < |t| ==> Less(e.name, t[i].name) || (e.name == t[i].name && i' == i + 1)
    ensures AllBefore(r + [e], t, i')
  {
    forall l | i' <= l < |t| ensures Less(e.name, t[l].name) {
      if l > i && e.name != t[i].name { LessTransitive(e.name, t[i].name, t[l].name); }
    }
  }

  lemma TakesFirst(t1: seq<Entry>, t2: seq<Entry>, r: seq<Entry>, i: nat, j: nat)
    requires Sorted(t1) && Sorted(t2) && i < |t1| && j <= |t2| && Merging(t1, t2, r, i, j)
    requires j < |t2| ==> Less(t1[i].name, t2[j].name)
    ensures Merging(t1, t2, r + [t1[i]], i + 1, j)
  {
    hide AsMap;
    AsMapSnoc(t1, i);
    SortedSnoc(r, t1[i]);
    BeforeSnoc(r, t1[i], t1, i, i + 1);
    BeforeSnoc(r, t1[i], t2, j, j);
    forall l | 0 <= l < j ensures t2[l].name != t1[i].name { Before(t1, t2, r, i, j, l); }
    NotIn(t2[..j], t1[i].name);
    hide AllBefore, Sorted;
  }

  lemma NotIn(t: seq<Entry>, name: string)
    requires forall l | 0 <= l < |t| :: t[l].name != name
    ensures name !in AsMap(t)
  {
    AsMapHas(t, name);
  }

  /** A record of t2 that has been taken is in r, and so before what is left of t1. */
  lemma Before(t1: seq<Entry>, t2: seq<Entry>, r: seq<Entry>, i: nat, j: nat, l: nat)
    requires Sorted(t1) && Sorted(t2) && i < |t1| && l < j <= |t2| && Merging(t1, t2, r, i, j)
    ensures t2[l].name != t1[i].name
  {
    AsMapHas(t2[..j], t2[l].name);
    assert t2[..j][l].name == t2[l].name;
    AsMapHas(r, t2[l].name);
    var k :| 0 <= k < |r| && r[k].name == t2[l].name;
    LessTrichotomy(r[k].name, t1[i].name);
  }

  lemma TakesSecond(t1: seq<Entry>, t2: seq<Entry>, r: seq<Entry>, i: nat, j: nat)
    requires Sorted(t1) && Sorted(t2) && i <= |t1| && j < |t2| && Merging(t1, t2, r, i, j)
    requires i < |t1| ==> Less(t2[j].name, t1[i].name)
    ensures Merging(t1, t2, r + [t2[j]], i, j + 1)
  {
    hide AsMap;
    AsMapSnoc(t2, j);
    SortedSnoc(r, t2[j]);
    BeforeSnoc(r, t2[j], t1, i, i);
    BeforeSnoc(r, t2[j], t2, j, j + 1);
    hide AllBefore, Sorted;
  }

  lemma TakesBoth(t1: seq<Entry>, t2: seq<Entry>, r: seq<Entry>, i: nat, j: nat)
    requires Sorted(t1) && Sorted(t2) && i < |t1| && j < |t2| && Merging(t1, t2, r, i, j)
    requires t1[i].name == t2[j].name
    ensures Merging(t1, t2, r + [t2[j]], i + 1, j + 1)
  {
    hide AsMap;
    AsMapSnoc(t1, i);
    AsMapSnoc(t2, j);
    SortedSnoc(r, t2[j]);
    BeforeSnoc(r, t2[j], t1, i, i + 1);
    BeforeSnoc(r, t2[j], t2, j, j + 1);
    hide AllBefore, Sorted;
  }
}
