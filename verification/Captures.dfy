/** Which part of a match each piece of the expression takes, as dissect() decides it, and the
    sub-matches that result. */
module Captures {
  import opened Strip
  import opened Regex
  import opened Options
  import opened SlowScan

  /** Offsets of a sub-match; -1 when it is unset. */
  datatype RegMatch = RegMatch(so: int, eo: int)

  const Unset := RegMatch(-1, -1)

  function SetStart(pm: seq<RegMatch>, i: nat, p: int): (r: seq<RegMatch>)
    ensures |r| == |pm|
  {
    if i < |pm| then pm[i := pm[i].(so := p)] else pm
  }

  function SetEnd(pm: seq<RegMatch>, i: nat, p: int): (r: seq<RegMatch>)
    ensures |r| == |pm|
  {
    if i < |pm| then pm[i := pm[i].(eo := p)] else pm
  }

  // ----- the choices -----

  /** The greatest r up to `limit` at which `n` can end, so that `t` matches from r to `stop`. */
  ghost function Split(g: Guts, x: Subject, n: Node, t: Re, sp: int, limit: int, stop: int): int
    decreases limit - sp
  {
    if limit <= sp || (NodeMatches(g, x, n, sp, limit) && Matches(g, x, t, limit, stop)) then limit
    else Split(g, x, n, t, sp, limit - 1, stop)
  }

  /** The last pass of a loop over `b`, when every pass takes as much as it can.  The pass before
      the one at ssp began at `before`. */
  ghost function LastPass(g: Guts, x: Subject, b: Re, before: int, ssp: int, rest: int): (int, int)
    decreases rest - ssp
  {
    var sep := LongestMatch(g, x, b, ssp, rest);
    if sep.None? then (before, ssp)
    else if sep.value <= ssp || rest <= ssp then (ssp, ssp)
    else LastPass(g, x, b, ssp, sep.value, rest)
  }

  /** The first branch that matches all of the text between sp and rest. */
  ghost function FirstBranch(g: Guts, x: Subject, f: Re, more: Alts, sp: int, rest: int): Re
    decreases more
  {
    if LongestMatch(g, x, f, sp, rest) == Some(rest) then f
    else match more
      case Last(re) => re
      case Or(re, others) => FirstBranch(g, x, re, others, sp, rest)
  }

  lemma {:induction false} BranchShorter(g: Guts, x: Subject, f: Re, more: Alts, sp: int, rest: int)
    ensures Len(FirstBranch(g, x, f, more, sp, rest)) < 2 + Len(f) + AltsLen(more)
    decreases more
  {
    if LongestMatch(g, x, f, sp, rest) != Some(rest) && more.Or? { BranchShorter(g, x, more.re, more.more, sp, rest); }
  }

  // ----- the sub-matches -----

  /** What dissect() makes of the sub-matches `pm` for a segment that matches from sp to stop. */
  ghost function Dissected(g: Guts, x: Subject, re: Re, sp: int, stop: int, pm: seq<RegMatch>): (r: seq<RegMatch>)
    ensures |r| == |pm|
    decreases Len(re)
  {
    match re
    case End(_) => pm
    case Then(n, t) =>
      assert Len(re) == NodeLen(n) + Len(t);
      match n
      case One(a) =>
        if a.Rparen? then Dissected(g, x, t, sp, stop, SetEnd(pm, a.i, sp))
        else if a.Bol? || a.Eol? then Dissected(g, x, t, sp, stop, pm)
        else Dissected(g, x, t, sp + 1, stop, pm)
      case Bracket(k, b) =>
        if k.Group? then
          assert Len(Then(One(Rparen(k.i)), t)) == 1 + Len(t);
          Dissected(g, x, Append(b, Then(One(Rparen(k.i)), t)), sp, stop, SetStart(pm, k.i, sp))
        else
          var rest := Split(g, x, n, t, sp, stop, stop);
          Dissected(g, x, t, rest, stop, DissectedBody(g, x, k, b, sp, rest, pm))
      case Choice(f, more) =>
        var rest := Split(g, x, n, t, sp, stop, stop);
        BranchShorter(g, x, f, more, sp, rest);
        var branch := FirstBranch(g, x, f, more, sp, rest);
        Dissected(g, x, t, rest, stop, Dissected(g, x, branch, sp, rest, pm))
  }

  ghost function DissectedBody(g: Guts, x: Subject, k: Kind, b: Re, sp: int, rest: int, pm: seq<RegMatch>): (r: seq<RegMatch>)
    ensures |r| == |pm|
    decreases Len(b) + 1
  {
    if k.Plus? then
      var pass := LastPass(g, x, b, sp, sp, rest);
      Dissected(g, x, b, pass.0, pass.1, pm)
    else if LongestMatch(g, x, b, sp, rest).Some? then Dissected(g, x, b, sp, rest, pm)
    else pm
  }

  // ----- the choices are right -----

  /** When something matches from sp to stop, the split is a split, and the greatest. */
  lemma {:induction false} SplitSplits(g: Guts, x: Subject, n: Node, t: Re, sp: int, limit: int, stop: int, k: int)
    requires NodeMatches(g, x, n, sp, k) && Matches(g, x, t, k, stop) && sp <= k <= limit
    ensures var r := Split(g, x, n, t, sp, limit, stop);
            k <= r <= limit && NodeMatches(g, x, n, sp, r) && Matches(g, x, t, r, stop)
    decreases limit - sp
  {
    if k < limit && !(NodeMatches(g, x, n, sp, limit) && Matches(g, x, t, limit, stop)) {
      SplitSplits(g, x, n, t, sp, limit - 1, stop, k);
    }
  }

  lemma SplitOf(g: Guts, x: Subject, n: Node, t: Re, sp: int, stop: int) returns (r: int)
    requires Matches(g, x, Then(n, t), sp, stop)
    ensures r == Split(g, x, n, t, sp, stop, stop) && sp <= r <= stop
    ensures NodeMatches(g, x, n, sp, r) && Matches(g, x, t, r, stop)
  {
    var k := ThenSplits(g, x, n, t, sp, stop);
    NodeBounds(g, x, n, sp, k);
    MatchBounds(g, x, t, k, stop);
    SplitSplits(g, x, n, t, sp, stop, stop, k);
    r := Split(g, x, n, t, sp, stop, stop);
  }

  /** The last pass is a pass. */
  lemma {:induction false} LastPassMatches(g: Guts, x: Subject, b: Re, before: int, ssp: int, rest: int)
    requires ssp <= rest
    requires LongestMatch(g, x, b, ssp, rest).Some? || (before < ssp && Matches(g, x, b, before, ssp))
    ensures var p := LastPass(g, x, b, before, ssp, rest);
            (p.0 == before || ssp <= p.0) && p.0 <= p.1 <= rest && Matches(g, x, b, p.0, p.1)
    decreases rest - ssp
  {
    var sep := LongestMatch(g, x, b, ssp, rest);
    LongestMatchIsGreatest(g, x, b, ssp, rest);
    if sep.Some? && sep.value > ssp && rest > ssp { LastPassMatches(g, x, b, ssp, sep.value, rest); }
  }

  lemma LoopHasPass(g: Guts, x: Subject, b: Re, sp: int, rest: int)
    requires NodeMatches(g, x, Bracket(Plus, b), sp, rest)
    ensures LongestMatch(g, x, b, sp, rest).Some? && sp <= rest
  {
    var n: nat :| Repeats(g, x, b, n, sp, rest) && n >= 1;
    var k := RepeatSplits(g, x, b, n, sp, rest);
    MatchBounds(g, x, b, sp, k);
    RepeatBounds(g, x, b, n - 1, k, rest);
    LongestMatchIsGreatest(g, x, b, sp, rest);
  }

  /** The first branch matches. */
  lemma {:induction false} FirstBranchMatches(g: Guts, x: Subject, f: Re, more: Alts, sp: int, rest: int)
    requires sp <= rest && (Matches(g, x, f, sp, rest) || AltsMatch(g, x, more, sp, rest))
    ensures Matches(g, x, FirstBranch(g, x, f, more, sp, rest), sp, rest)
    decreases more
  {
    LongestMatchIsGreatest(g, x, f, sp, rest);
    if LongestMatch(g, x, f, sp, rest) != Some(rest) && more.Or? {
      FirstBranchMatches(g, x, more.re, more.more, sp, rest);
    }
  }

  // ----- what a sub-match holds -----

  /** No part of `re` is a back reference or a right parenthesis on its own. */
  predicate Proper(re: Re)
    decreases re
  {
    match re
    case End(_) => true
    case Then(n, t) => ProperNode(n) && Proper(t)
  }

  predicate ProperNode(n: Node)
    decreases n
  {
    match n
    case One(a) => !a.Rparen?
    case Bracket(k, b) => !k.Back? && Proper(b) && (k.Group? ==> !HasGroup(b, k.i))
    case Choice(f, r) => Proper(f) && ProperAlts(r)
  }

  predicate ProperAlts(a: Alts)
    decreases a
  {
    match a
    case Last(re) => Proper(re)
    case Or(re, more) => Proper(re) && ProperAlts(more)
  }

  /** A group numbered i is somewhere in `re`. */
  predicate HasGroup(re: Re, i: nat)
    decreases re
  {
    match re
    case End(_) => false
    case Then(n, t) => NodeHasGroup(n, i) || HasGroup(t, i)
  }

  predicate NodeHasGroup(n: Node, i: nat)
    decreases n
  {
    match n
    case One(_) => false
    case Bracket(k, b) => k == Group(i) || HasGroup(b, i)
    case Choice(f, r) => HasGroup(f, i) || AltsHaveGroup(r, i)
  }

  predicate AltsHaveGroup(a: Alts, i: nat)
    decreases a
  {
    match a
    case Last(re) => HasGroup(re, i)
    case Or(re, more) => HasGroup(re, i) || AltsHaveGroup(more, i)
  }

  /** The body `b` is that of a group numbered i in `re`. */
  ghost predicate GroupBody(re: Re, i: nat, b: Re)
    decreases re
  {
    match re
    case End(_) => false
    case Then(n, t) => NodeGroupBody(n, i, b) || GroupBody(t, i, b)
  }

  ghost predicate NodeGroupBody(n: Node, i: nat, b: Re)
    decreases n
  {
    match n
    case One(_) => false
    case Bracket(k, body) => (k == Group(i) && body == b) || GroupBody(body, i, b)
    case Choice(f, r) => GroupBody(f, i, b) || AltsGroupBody(r, i, b)
  }

  ghost predicate AltsGroupBody(a: Alts, i: nat, b: Re)
    decreases a
  {
    match a
    case Last(re) => GroupBody(re, i, b)
    case Or(re, more) => GroupBody(re, i, b) || AltsGroupBody(more, i, b)
  }

  lemma {:induction false} BodyMeansGroup(re: Re, i: nat, b: Re)
    requires GroupBody(re, i, b)
    ensures HasGroup(re, i)
    decreases re
  {
    if NodeGroupBody(re.head, i, b) { NodeBodyMeansGroup(re.head, i, b); } else { BodyMeansGroup(re.tail, i, b); }
  }

  lemma {:induction false} NodeBodyMeansGroup(n: Node, i: nat, b: Re)
    requires NodeGroupBody(n, i, b)
    ensures NodeHasGroup(n, i)
    decreases n
  {
    match n
    case Bracket(k, body) => if k != Group(i) || body != b { BodyMeansGroup(body, i, b); }
    case Choice(f, r) => if GroupBody(f, i, b) { BodyMeansGroup(f, i, b); } else { AltsBodyMeansGroup(r, i, b); }
  }

  lemma {:induction false} AltsBodyMeansGroup(a: Alts, i: nat, b: Re)
    requires AltsGroupBody(a, i, b)
    ensures AltsHaveGroup(a, i)
    decreases a
  {
    if GroupBody(a.re, i, b) { BodyMeansGroup(a.re, i, b); } else { AltsBodyMeansGroup(a.more, i, b); }
  }

  /** `r` is what some group numbered i of `re` matched, inside [lo, hi]. */
  ghost predicate Captured(g: Guts, x: Subject, re: Re, i: nat, r: RegMatch, lo: int, hi: int) {
    exists b :: GroupBody(re, i, b) && CapturedBy(g, x, b, r, lo, hi)
  }

  ghost predicate CapturedBy(g: Guts, x: Subject, b: Re, r: RegMatch, lo: int, hi: int) {
    lo <= r.so <= r.eo <= hi && Matches(g, x, b, r.so, r.eo)
  }

  /** Every sub-match that has changed is what a group of `re` matched. */
  ghost predicate Updates(g: Guts, x: Subject, re: Re, pm: seq<RegMatch>, pm': seq<RegMatch>, lo: int, hi: int) {
    |pm'| == |pm| && forall i | 0 <= i < |pm| :: pm'[i] == pm[i] || Captured(g, x, re, i, pm'[i], lo, hi)
  }

  // ----- groups that every match passes through -----

  predicate Must(re: Re, i: nat)
    decreases re
  {
    match re
    case End(_) => false
    case Then(n, t) => NodeMust(n, i) || Must(t, i)
  }

  predicate NodeMust(n: Node, i: nat)
    decreases n
  {
    match n
    case One(_) => false
    case Bracket(k, b) => k == Group(i) || ((k.Group? || k.Plus?) && Must(b, i))
    case Choice(f, r) => Must(f, i) && AltsMust(r, i)
  }

  predicate AltsMust(a: Alts, i: nat)
    decreases a
  {
    match a
    case Last(re) => Must(re, i)
    case Or(re, more) => Must(re, i) && AltsMust(more, i)
  }

  /** Each of these groups of `re` is set, to what such a group matched inside [lo, hi]. */
  ghost predicate Sure(g: Guts, x: Subject, re: Re, pm: seq<RegMatch>, lo: int, hi: int) {
    forall i | 0 <= i < |pm| && Must(re, i) :: Captured(g, x, re, i, pm[i], lo, hi)
  }

  ghost predicate NodeSure(g: Guts, x: Subject, n: Node, pm: seq<RegMatch>, lo: int, hi: int) {
    forall i | 0 <= i < |pm| && NodeMust(n, i) :: Captured(g, x, Then(n, End(0)), i, pm[i], lo, hi)
  }

  /** What is captured by a part is captured by the whole. */
  lemma CapturedByPart(g: Guts, x: Subject, part: Re, re: Re, i: nat, r: RegMatch, lo: int, hi: int, lo': int, hi': int)
    requires Captured(g, x, part, i, r, lo, hi) && lo' <= lo && hi <= hi'
    requires forall b :: GroupBody(part, i, b) ==> GroupBody(re, i, b)
    ensures Captured(g, x, re, i, r, lo', hi')
  {
    var b :| GroupBody(part, i, b) && CapturedBy(g, x, b, r, lo, hi);
    assert GroupBody(re, i, b) && CapturedBy(g, x, b, r, lo', hi');
  }

  lemma SureWidens(g: Guts, x: Subject, b: Re, pm: seq<RegMatch>, lo: int, hi: int, lo': int, hi': int)
    requires Sure(g, x, b, pm, lo, hi) && lo' <= lo && hi <= hi'
    ensures Sure(g, x, b, pm, lo', hi')
  {
    hide Captured;
    forall i | 0 <= i < |pm| && Must(b, i) ensures Captured(g, x, b, i, pm[i], lo', hi') {
      CapturedWidens(g, x, b, i, pm[i], lo, hi, lo', hi');
    }
  }

  /** A piece and what follows it. */
  lemma SureThen(g: Guts, x: Subject, n: Node, t: Re, pm1: seq<RegMatch>, pm2: seq<RegMatch>, lo: int, mid: int, hi: int)
    requires NodeSure(g, x, n, pm1, lo, hi) && Updates(g, x, t, pm1, pm2, mid, hi) && Sure(g, x, t, pm2, mid, hi) && lo <= mid
    ensures Sure(g, x, Then(n, t), pm2, lo, hi)
  {
    hide Captured;
    var re := Then(n, t);
    forall i | 0 <= i < |pm2| && Must(re, i) ensures Captured(g, x, re, i, pm2[i], lo, hi) {
      if Must(t, i) || pm2[i] != pm1[i] { CapturedByPart(g, x, t, re, i, pm2[i], mid, hi, lo, hi); }
      else { CapturedByPart(g, x, Then(n, End(0)), re, i, pm2[i], lo, hi, lo, hi); }
    }
  }

  /** A part of a piece that has all its groups of this kind. */
  lemma SureOfNode(g: Guts, x: Subject, b: Re, n: Node, pm: seq<RegMatch>, lo: int, hi: int, lo': int, hi': int)
    requires Sure(g, x, b, pm, lo, hi) && lo' <= lo && hi <= hi'
    requires forall i: nat :: NodeMust(n, i) ==> Must(b, i)
    requires forall i: nat, body :: GroupBody(b, i, body) ==> GroupBody(Then(n, End(0)), i, body)
    ensures NodeSure(g, x, n, pm, lo', hi')
  {
    hide Captured;
    forall i | 0 <= i < |pm| && NodeMust(n, i) ensures Captured(g, x, Then(n, End(0)), i, pm[i], lo', hi') {
      CapturedByPart(g, x, b, Then(n, End(0)), i, pm[i], lo, hi, lo', hi');
    }
  }

  lemma {:induction false} BranchMust(g: Guts, x: Subject, f: Re, more: Alts, sp: int, rest: int)
    ensures forall i: nat :: Must(f, i) && AltsMust(more, i) ==> Must(FirstBranch(g, x, f, more, sp, rest), i)
    decreases more
  {
    if LongestMatch(g, x, f, sp, rest) != Some(rest) && more.Or? { BranchMust(g, x, more.re, more.more, sp, rest); }
  }

  lemma GroupSure(g: Guts, x: Subject, i: nat, b: Re, sp: int, q: int, stop: int, pm: seq<RegMatch>, pm1: seq<RegMatch>)
    requires !HasGroup(b, i) && sp <= q <= stop && Matches(g, x, b, sp, q)
    requires Updates(g, x, b, SetStart(pm, i, sp), pm1, sp, stop) && Sure(g, x, b, pm1, sp, stop)
    ensures NodeSure(g, x, Bracket(Group(i), b), SetEnd(pm1, i, q), sp, stop)
  {
    var n, re := Bracket(Group(i), b), Then(Bracket(Group(i), b), End(0));
    var pm' := SetEnd(pm1, i, q);
    forall j | 0 <= j < |pm'| && NodeMust(n, j) ensures Captured(g, x, re, j, pm'[j], sp, stop) {
      if j == i {
        StartKept(g, x, i, b, sp, stop, pm, pm1);
        assert GroupBody(re, i, b) && CapturedBy(g, x, b, pm'[i], sp, stop);
      } else {
        CapturedByPart(g, x, b, re, j, pm1[j], sp, stop, sp, stop);
      }
    }
  }

  /** What comes inside a group leaves its own beginning alone. */
  lemma StartKept(g: Guts, x: Subject, i: nat, b: Re, sp: int, stop: int, pm: seq<RegMatch>, pm1: seq<RegMatch>)
    requires !HasGroup(b, i) && i < |pm| && Updates(g, x, b, SetStart(pm, i, sp), pm1, sp, stop)
    ensures pm1[i].so == sp
  {
    if pm1[i] != SetStart(pm, i, sp)[i] {
      var body :| GroupBody(b, i, body) && CapturedBy(g, x, body, pm1[i], sp, stop);
      BodyMeansGroup(b, i, body);
    }
  }

  // ----- the theorem -----

  function EndOf(re: Re): Re {
    if re.End? then re else EndOf(re.tail)
  }

  lemma {:induction false} AppendEnd(re: Re)
    ensures Append(re, EndOf(re)) == re && EndOf(re).End?
    decreases re
  {
    if re.Then? { AppendEnd(re.tail); }
  }

  lemma UpdatesThen(g: Guts, x: Subject, re: Re, a: seq<RegMatch>, b: seq<RegMatch>, c: seq<RegMatch>, lo: int, mid: int, hi: int)
    requires Updates(g, x, re, a, b, lo, hi) && Updates(g, x, re, b, c, mid, hi) && lo <= mid
    ensures Updates(g, x, re, a, c, lo, hi)
  {
    forall i | 0 <= i < |a| ensures c[i] == a[i] || Captured(g, x, re, i, c[i], lo, hi) {
      if c[i] != b[i] { CapturedWidens(g, x, re, i, c[i], mid, hi, lo, hi); }
    }
  }

  lemma CapturedWidens(g: Guts, x: Subject, re: Re, i: nat, r: RegMatch, lo: int, hi: int, lo': int, hi': int)
    requires Captured(g, x, re, i, r, lo, hi) && lo' <= lo && hi <= hi'
    ensures Captured(g, x, re, i, r, lo', hi')
  {
    var b :| GroupBody(re, i, b) && CapturedBy(g, x, b, r, lo, hi);
    assert CapturedBy(g, x, b, r, lo', hi');
  }

  /** What a part of `re` captures counts for `re`. */
  lemma UpdatesWidens(g: Guts, x: Subject, part: Re, re: Re, a: seq<RegMatch>, b: seq<RegMatch>, lo: int, hi: int, lo': int, hi': int)
    requires Updates(g, x, part, a, b, lo, hi) && lo' <= lo && hi <= hi'
    requires forall i: nat, body :: GroupBody(part, i, body) ==> GroupBody(re, i, body)
    ensures Updates(g, x, re, a, b, lo', hi')
  {
    forall i | 0 <= i < |a| && b[i] != a[i] ensures Captured(g, x, re, i, b[i], lo', hi') {
      var body :| GroupBody(part, i, body) && CapturedBy(g, x, body, b[i], lo, hi);
      assert GroupBody(re, i, body) && CapturedBy(g, x, body, b[i], lo', hi');
    }
  }

  lemma {:induction false} BranchBodies(g: Guts, x: Subject, f: Re, more: Alts, sp: int, rest: int)
    requires Proper(f) && ProperAlts(more)
    ensures var br := FirstBranch(g, x, f, more, sp, rest);
            Proper(br) &&
            forall i: nat, body :: GroupBody(br, i, body) ==> GroupBody(f, i, body) || AltsGroupBody(more, i, body)
    ensures var br := FirstBranch(g, x, f, more, sp, rest); br == f || br < more
    decreases more
  {
    if LongestMatch(g, x, f, sp, rest) != Some(rest) && more.Or? {
      BranchBodies(g, x, more.re, more.more, sp, rest);
    }
  }

  /** dissect() works through `re` and comes out at a place q that splits the text between `re`
      and what follows it; every sub-match it has set is the text of a group of `re`, and the groups
      that every match passes through are set. */
  lemma {:induction false} DissectRuns(g: Guts, x: Subject, re: Re, k: Re, sp: int, stop: int, pm: seq<RegMatch>)
    returns (q: int, pm': seq<RegMatch>)
    requires Proper(re) && Matches(g, x, Append(re, k), sp, stop)
    ensures sp <= q <= stop && Matches(g, x, re, sp, q) && Matches(g, x, k, q, stop)
    ensures Dissected(g, x, Append(re, k), sp, stop, pm) == Dissected(g, x, k, q, stop, pm')
    ensures Updates(g, x, re, pm, pm', sp, stop) && Sure(g, x, re, pm', sp, stop)
    decreases re, 0
  {
    match re
    case End(_) =>
      q, pm' := sp, pm;
      MatchBounds(g, x, k, sp, stop);
    case Then(n, t) =>
      var q1, pm1 := NodeRuns(g, x, n, Append(t, k), sp, stop, pm);
      q, pm' := DissectRuns(g, x, t, k, q1, stop, pm1);
      ThenMatches(g, x, n, t, sp, q1, q);
      UpdatesOfNode(g, x, n, t, pm, pm1, sp, stop);
      UpdatesWidens(g, x, t, re, pm1, pm', q1, stop, q1, stop);
      UpdatesThen(g, x, re, pm, pm1, pm', sp, q1, stop);
      UpdatesWidens(g, x, t, t, pm1, pm', q1, stop, q1, stop);
      SureThen(g, x, n, t, pm1, pm', sp, q1, stop);
  }

  ghost predicate NodeUpdates(g: Guts, x: Subject, n: Node, pm: seq<RegMatch>, pm': seq<RegMatch>, lo: int, hi: int) {
    Updates(g, x, Then(n, End(0)), pm, pm', lo, hi)
  }

  lemma UpdatesOfNode(g: Guts, x: Subject, n: Node, t: Re, pm: seq<RegMatch>, pm': seq<RegMatch>, lo: int, hi: int)
    requires NodeUpdates(g, x, n, pm, pm', lo, hi)
    ensures Updates(g, x, Then(n, t), pm, pm', lo, hi)
  {
    UpdatesWidens(g, x, Then(n, End(0)), Then(n, t), pm, pm', lo, hi, lo, hi);
  }

  lemma {:induction false} NodeRuns(g: Guts, x: Subject, n: Node, k: Re, sp: int, stop: int, pm: seq<RegMatch>)
    returns (q: int, pm': seq<RegMatch>)
    requires ProperNode(n) && Matches(g, x, Then(n, k), sp, stop)
    ensures sp <= q <= stop && NodeMatches(g, x, n, sp, q) && Matches(g, x, k, q, stop)
    ensures Dissected(g, x, Then(n, k), sp, stop, pm) == Dissected(g, x, k, q, stop, pm')
    ensures NodeUpdates(g, x, n, pm, pm', sp, stop) && NodeSure(g, x, n, pm', sp, stop)
    decreases n, 0
  {
    match n
    case One(a) =>
      q := ThenSplits(g, x, n, k, sp, stop);
      pm' := pm;
      NodeBounds(g, x, n, sp, q);
      MatchBounds(g, x, k, q, stop);
    case Bracket(kind, b) =>
      if kind.Group? {
        q, pm' := GroupRuns(g, x, kind.i, b, k, sp, stop, pm);
      } else {
        q := SplitOf(g, x, n, k, sp, stop);
        pm' := BodyRuns(g, x, kind, b, sp, q, pm);
        UpdatesWidens(g, x, b, Then(n, End(0)), pm, pm', sp, q, sp, stop);
        if kind.Plus? { SureOfNode(g, x, b, n, pm', sp, q, sp, stop); }
      }
    case Choice(f, more) =>
      q := SplitOf(g, x, n, k, sp, stop);
      FirstBranchMatches(g, x, f, more, sp, q);
      BranchBodies(g, x, f, more, sp, q);
      var br := FirstBranch(g, x, f, more, sp, q);
      pm' := WholeRuns(g, x, br, sp, q, pm);
      UpdatesWidens(g, x, br, Then(n, End(0)), pm, pm', sp, q, sp, stop);
      BranchMust(g, x, f, more, sp, q);
      SureOfNode(g, x, br, n, pm', sp, q, sp, stop);
  }

  lemma {:induction false} WholeRuns(g: Guts, x: Subject, b: Re, sp: int, stop: int, pm: seq<RegMatch>)
    returns (pm': seq<RegMatch>)
    requires Proper(b) && Matches(g, x, b, sp, stop)
    ensures pm' == Dissected(g, x, b, sp, stop, pm) && Updates(g, x, b, pm, pm', sp, stop) && Sure(g, x, b, pm', sp, stop)
    decreases b, 1
  {
    AppendEnd(b);
    var q;
    q, pm' := DissectRuns(g, x, b, EndOf(b), sp, stop, pm);
  }

  lemma {:induction false} BodyRuns(g: Guts, x: Subject, kind: Kind, b: Re, sp: int, rest: int, pm: seq<RegMatch>)
    returns (pm': seq<RegMatch>)
    requires (kind.Plus? || kind.Quest?) && Proper(b) && NodeMatches(g, x, Bracket(kind, b), sp, rest)
    ensures pm' == DissectedBody(g, x, kind, b, sp, rest, pm) && Updates(g, x, b, pm, pm', sp, rest)
    ensures kind.Plus? || Matches(g, x, b, sp, rest) ==> Sure(g, x, b, pm', sp, rest)
    decreases b, 2
  {
    if kind.Plus? {
      LoopHasPass(g, x, b, sp, rest);
      LastPassMatches(g, x, b, sp, sp, rest);
      var pass := LastPass(g, x, b, sp, sp, rest);
      pm' := WholeRuns(g, x, b, pass.0, pass.1, pm);
      UpdatesWidens(g, x, b, b, pm, pm', pass.0, pass.1, sp, rest);
      SureWidens(g, x, b, pm', pass.0, pass.1, sp, rest);
    } else {
      LongestMatchIsGreatest(g, x, b, sp, rest);
      if Matches(g, x, b, sp, rest) { MatchBounds(g, x, b, sp, rest); }
      if LongestMatch(g, x, b, sp, rest).Some? {
        pm' := WholeRuns(g, x, b, sp, rest, pm);
      } else {
        pm' := pm;
      }
    }
  }

  lemma {:induction false} GroupRuns(g: Guts, x: Subject, i: nat, b: Re, k: Re, sp: int, stop: int, pm: seq<RegMatch>)
    returns (q: int, pm': seq<RegMatch>)
    requires Proper(b) && !HasGroup(b, i) && Matches(g, x, Then(Bracket(Group(i), b), k), sp, stop)
    ensures sp <= q <= stop && Matches(g, x, b, sp, q) && Matches(g, x, k, q, stop)
    ensures Dissected(g, x, Then(Bracket(Group(i), b), k), sp, stop, pm) == Dissected(g, x, k, q, stop, pm')
    ensures NodeUpdates(g, x, Bracket(Group(i), b), pm, pm', sp, stop) && NodeSure(g, x, Bracket(Group(i), b), pm', sp, stop)
    decreases b, 1
  {
    var k' := Then(One(Rparen(i)), k);
    var m := ThenSplits(g, x, Bracket(Group(i), b), k, sp, stop);
    ThenMatches(g, x, One(Rparen(i)), k, m, m, stop);
    assert Matches(g, x, b, sp, m) && Matches(g, x, k', m, stop);
    AppendMatches(g, x, b, k', sp, stop);
    var pm1;
    q, pm1 := DissectRuns(g, x, b, k', sp, stop, SetStart(pm, i, sp));
    var q' := ThenSplits(g, x, One(Rparen(i)), k, q, stop);
    pm' := SetEnd(pm1, i, q);
    GroupUpdates(g, x, i, b, sp, q, stop, pm, pm1);
    GroupSure(g, x, i, b, sp, q, stop, pm, pm1);
  }

  lemma GroupUpdates(g: Guts, x: Subject, i: nat, b: Re, sp: int, q: int, stop: int, pm: seq<RegMatch>, pm1: seq<RegMatch>)
    requires !HasGroup(b, i) && sp <= q <= stop && Matches(g, x, b, sp, q)
    requires Updates(g, x, b, SetStart(pm, i, sp), pm1, sp, stop)
    ensures NodeUpdates(g, x, Bracket(Group(i), b), pm, SetEnd(pm1, i, q), sp, stop)
  {
    var re := Then(Bracket(Group(i), b), End(0));
    var pm' := SetEnd(pm1, i, q);
    forall j | 0 <= j < |pm| && pm'[j] != pm[j] ensures Captured(g, x, re, j, pm'[j], sp, stop) {
      if j == i {
        if pm1[i] != SetStart(pm, i, sp)[i] {
          var body :| GroupBody(b, i, body) && CapturedBy(g, x, body, pm1[i], sp, stop);
          BodyMeansGroup(b, i, body);
          assert false;
        }
        assert GroupBody(re, i, b) && CapturedBy(g, x, b, pm'[i], sp, stop);
      } else {
        var body :| GroupBody(b, j, body) && CapturedBy(g, x, body, pm'[j], sp, stop);
        assert GroupBody(re, j, body) && CapturedBy(g, x, body, pm'[j], sp, stop);
      }
    }
  }

  // ----- where the groups of options, loops and choices come from -----

  /** An option whose body matches its part of the text sets the body's groups there, and so one that takes
      any text; otherwise it leaves all sub-matches alone. */
  lemma OptionSets(g: Guts, x: Subject, b: Re, sp: int, rest: int, pm: seq<RegMatch>)
    requires Proper(b) && NodeMatches(g, x, Bracket(Quest, b), sp, rest)
    ensures sp < rest ==> Matches(g, x, b, sp, rest)
    ensures var pm' := DissectedBody(g, x, Quest, b, sp, rest, pm);
            if Matches(g, x, b, sp, rest) then Updates(g, x, b, pm, pm', sp, rest) && Sure(g, x, b, pm', sp, rest) else pm' == pm
  {
    hide Matches, Updates, Sure;
    var pm' := BodyRuns(g, x, Quest, b, sp, rest, pm);
    LongestMatchIsGreatest(g, x, b, sp, rest);
    assert Matches(g, x, b, sp, rest) || sp == rest by { OptionMatches(g, x, b, sp, rest); }
  }

  lemma OptionMatches(g: Guts, x: Subject, b: Re, sp: int, rest: int)
    requires NodeMatches(g, x, Bracket(Quest, b), sp, rest)
    ensures sp <= rest && (Matches(g, x, b, sp, rest) || sp == rest)
  {
    NodeBounds(g, x, Bracket(Quest, b), sp, rest);
  }

  /** A loop sets its body's groups in the last of the passes. */
  lemma LoopSets(g: Guts, x: Subject, b: Re, sp: int, rest: int, pm: seq<RegMatch>)
    requires Proper(b) && NodeMatches(g, x, Bracket(Plus, b), sp, rest)
    ensures var p := LastPass(g, x, b, sp, sp, rest);
            var pm' := DissectedBody(g, x, Plus, b, sp, rest, pm);
            && sp <= p.0 <= p.1 <= rest && LongestMatch(g, x, b, p.0, rest) == Some(p.1)
            && (LongestMatch(g, x, b, p.1, rest).Some? ==> p.0 == p.1)
            && Updates(g, x, b, pm, pm', p.0, p.1) && Sure(g, x, b, pm', p.0, p.1)
  {
    hide Matches, Updates, Sure;
    LoopHasPass(g, x, b, sp, rest);
    LastPassMatches(g, x, b, sp, sp, rest);
    LastPassIsLast(g, x, b, sp, sp, rest);
    var p := LastPass(g, x, b, sp, sp, rest);
    var pm' := WholeRuns(g, x, b, p.0, p.1, pm);
  }

  /** The last pass is as long as it can be, and no pass that takes text could come behind it. */
  lemma {:induction false} LastPassIsLast(g: Guts, x: Subject, b: Re, before: int, ssp: int, rest: int)
    requires ssp <= rest
    requires LongestMatch(g, x, b, ssp, rest).Some? || (before < ssp && LongestMatch(g, x, b, before, rest) == Some(ssp))
    ensures var p := LastPass(g, x, b, before, ssp, rest);
            && LongestMatch(g, x, b, p.0, rest) == Some(p.1)
            && (LongestMatch(g, x, b, p.1, rest).Some? ==> p.0 == p.1)
    decreases rest - ssp
  {
    hide Matches;
    var sep := LongestMatch(g, x, b, ssp, rest);
    LongestMatchIsGreatest(g, x, b, ssp, rest);
    if sep.Some? && sep.value > ssp && rest > ssp { LastPassIsLast(g, x, b, ssp, sep.value, rest); }
  }

  /** The branches of a choice. */
  function BranchList(f: Re, more: Alts): (r: seq<Re>)
    ensures |r| >= 2 && r[0] == f
    decreases more
  {
    match more
    case Last(re) => [f, re]
    case Or(re, others) => [f] + BranchList(re, others)
  }

  /** A choice goes into the first branch that matches its part of the text, and sets that branch's
      groups there. */
  lemma {:induction false} FirstBranchIsFirst(g: Guts, x: Subject, f: Re, more: Alts, sp: int, rest: int) returns (k: nat)
    requires sp <= rest && (Matches(g, x, f, sp, rest) || AltsMatch(g, x, more, sp, rest))
    ensures k < |BranchList(f, more)| && FirstBranch(g, x, f, more, sp, rest) == BranchList(f, more)[k]
    ensures Matches(g, x, BranchList(f, more)[k], sp, rest)
    ensures forall j | 0 <= j < k :: !Matches(g, x, BranchList(f, more)[j], sp, rest)
    decreases more
  {
    LongestMatchIsGreatest(g, x, f, sp, rest);
    if LongestMatch(g, x, f, sp, rest) == Some(rest) {
      k := 0;
    } else if more.Or? {
      var i := FirstBranchIsFirst(g, x, more.re, more.more, sp, rest);
      k := i + 1;
    } else {
      k := 1;
    }
  }

  lemma ChoiceSets(g: Guts, x: Subject, f: Re, more: Alts, sp: int, rest: int, pm: seq<RegMatch>) returns (k: nat)
    requires Proper(f) && ProperAlts(more) && sp <= rest && NodeMatches(g, x, Choice(f, more), sp, rest)
    ensures k < |BranchList(f, more)| && Matches(g, x, BranchList(f, more)[k], sp, rest)
    ensures forall j | 0 <= j < k :: !Matches(g, x, BranchList(f, more)[j], sp, rest)
    ensures var pm' := Dissected(g, x, FirstBranch(g, x, f, more, sp, rest), sp, rest, pm);
            Updates(g, x, BranchList(f, more)[k], pm, pm', sp, rest) && Sure(g, x, BranchList(f, more)[k], pm', sp, rest)
  {
    k := FirstBranchIsFirst(g, x, f, more, sp, rest);
    BranchBodies(g, x, f, more, sp, rest);
    hide Matches, Updates, Sure, Dissected;
    var pm' := WholeRuns(g, x, FirstBranch(g, x, f, more, sp, rest), sp, rest, pm);
  }
}
