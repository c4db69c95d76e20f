/** dissect(): the sub-matches of a range that is known to match, without back references. */
module Dissection {
  import opened Strip
  import opened Regex
  import opened Automaton
  import opened Options
  import opened Scanning
  import opened SlowScan
  import opened Captures

  /** The parts that dissect() can be asked about: no back references, and group numbers that
      the sub-match table has room for. */
  predicate Fits(re: Re, size: nat)
    decreases re
  {
    match re
    case End(_) => true
    case Then(n, t) => NodeFits(n, size) && Fits(t, size)
  }

  predicate NodeFits(n: Node, size: nat)
    decreases n
  {
    match n
    case One(a) => a.Rparen? ==> 0 < a.i < size
    case Bracket(k, b) => !k.Back? && (k.Group? ==> 0 < k.i < size) && Fits(b, size)
    case Choice(f, r) => Fits(f, size) && AltsFit(r, size)
  }

  predicate AltsFit(a: Alts, size: nat)
    decreases a
  {
    match a
    case Last(re) => Fits(re, size)
    case Or(re, more) => Fits(re, size) && AltsFit(more, size)
  }

  lemma {:induction false} AppendFits(a: Re, b: Re, size: nat)
    ensures Fits(Append(a, b), size) <==> Fits(a, size) && Fits(b, size)
    decreases a
  {
    if a.Then? { AppendFits(a.tail, b, size); }
  }

  /** A single piece as a segment. */
  lemma Alone(g: Guts, x: Subject, pc: int, n: Node, i: int, j: int)
    ensures Len(Then(n, End(0))) == NodeLen(n)
    ensures NodeHolds(g.strip, pc, n) ==> Holds(g.strip, pc, Then(n, End(0)))
    ensures Matches(g, x, Then(n, End(0)), i, j) <==> NodeMatches(g, x, n, i, j)
  {
    if NodeHolds(g.strip, pc, n) { NodeHoldsBounds(g.strip, pc, n); }
    if NodeMatches(g, x, n, i, j) { ThenMatches(g, x, n, End(0), i, j, j); }
    if Matches(g, x, Then(n, End(0)), i, j) { var k := ThenSplits(g, x, n, End(0), i, j); }
  }

  /** The greatest place where `n` can end so that `t` can follow up to `stop`. */
  method FindSplit(m: Match, sp: int, stop: int, ss: nat, es: nat, stopst: nat, ghost n: Node, ghost t: Re) returns (rest: int)
    requires m.Valid() && m.Exact() && m.x.begin <= sp <= stop <= m.x.end
    requires 1 <= ss && es == ss + NodeLen(n) && stopst == es + Len(t) < |m.g.strip|
    requires NodeHolds(m.g.strip, ss, n) && Holds(m.g.strip, es, t)
    requires Matches(m.g, m.x, Then(n, t), sp, stop)
    modifies m.st, m.st.bytes, m.tmp, m.tmp.bytes
    ensures m.Valid()
    ensures rest == Split(m.g, m.x, n, t, sp, stop, stop) && sp <= rest <= stop
    ensures NodeMatches(m.g, m.x, n, sp, rest) && Matches(m.g, m.x, t, rest, stop)
  {
    hide Matches, NodeMatches, Holds, NodeHolds, Split, LongestMatch, Scannable;
    ghost var one := Then(n, End(0));
    ghost var r := SplitOf(m.g, m.x, n, t, sp, stop);
    Alone(m.g, m.x, ss, n, sp, r);
    var stp := stop;
    while true
      invariant m.Valid() && r <= stp <= stop
      invariant r == Split(m.g, m.x, n, t, sp, stp, stop)
      decreases stp
    {
      var longest := Slow(m, sp, stp, ss, es, one);
      LongestMatchIsGreatest(m.g, m.x, one, sp, stp);
      rest := longest.value;
      Alone(m.g, m.x, ss, n, sp, rest);
      var tail := Slow(m, rest, stop, es, stopst, t);
      LongestMatchIsGreatest(m.g, m.x, t, rest, stop);
      SplitSkips(m.g, m.x, n, t, sp, stp, stop, rest);
      if tail == Some(stop) { break; }
      stp := rest - 1;
    }
  }

  /** Nothing that `n` matches ends between its longest end and the limit. */
  lemma {:induction false} SplitSkips(g: Guts, x: Subject, n: Node, t: Re, sp: int, limit: int, stop: int, rest: int)
    requires LongestMatch(g, x, Then(n, End(0)), sp, limit) == Some(rest)
    ensures sp <= rest <= limit && NodeMatches(g, x, n, sp, rest)
    ensures Split(g, x, n, t, sp, limit, stop) ==
            if Matches(g, x, t, rest, stop) || rest <= sp then rest else Split(g, x, n, t, sp, rest - 1, stop)
    decreases limit - sp
  {
    LongestMatchIsGreatest(g, x, Then(n, End(0)), sp, limit);
    Alone(g, x, 0, n, sp, limit);
    Alone(g, x, 0, n, sp, rest);
    if rest < limit { SplitSkips(g, x, n, t, sp, limit - 1, stop, rest); }
  }

  /** An option: its part of the text, and its body's sub-matches if the body matched. */
  method DissectQuest(m: Match, pm: array<RegMatch>, sp: int, stop: int, ss: nat, es: nat, stopst: nat, ghost b: Re, ghost t: Re)
    returns (rest: int)
    requires m.Valid() && m.Exact() && m.x.begin <= sp <= stop <= m.x.end
    requires 1 <= ss && es == ss + 2 + Len(b) && stopst == es + Len(t) < |m.g.strip|
    requires NodeHolds(m.g.strip, ss, Bracket(Quest, b)) && Holds(m.g.strip, es, t)
    requires Matches(m.g, m.x, Then(Bracket(Quest, b), t), sp, stop) && Fits(b, pm.Length)
    modifies m.st, m.st.bytes, m.tmp, m.tmp.bytes, pm
    ensures m.Valid()
    ensures rest == Split(m.g, m.x, Bracket(Quest, b), t, sp, stop, stop) && sp <= rest <= stop
    ensures Matches(m.g, m.x, t, rest, stop)
    ensures pm[..] == DissectedBody(m.g, m.x, Quest, b, sp, rest, old(pm[..]))
    decreases 2 + Len(b), 0
  {
    hide Split;
    rest := FindSplit(m, sp, stop, ss, es, stopst, Bracket(Quest, b), t);
    var ssub, esub := ss + 1, es - 1;
    var inner := Slow(m, sp, rest, ssub, esub, b);
    LongestMatchIsGreatest(m.g, m.x, b, sp, rest);
    if inner != None {
      var dp := Dissect(m, pm, sp, rest, ssub, esub, b);
    }
  }

  method DissectPlus(m: Match, pm: array<RegMatch>, sp: int, stop: int, ss: nat, es: nat, stopst: nat, ghost b: Re, ghost t: Re)
    returns (rest: int)
    requires m.Valid() && m.Exact() && m.x.begin <= sp <= stop <= m.x.end
    requires 1 <= ss && es == ss + 2 + Len(b) && stopst == es + Len(t) < |m.g.strip|
    requires NodeHolds(m.g.strip, ss, Bracket(Plus, b)) && Holds(m.g.strip, es, t)
    requires Matches(m.g, m.x, Then(Bracket(Plus, b), t), sp, stop) && Fits(b, pm.Length)
    modifies m.st, m.st.bytes, m.tmp, m.tmp.bytes, pm
    ensures m.Valid()
    ensures rest == Split(m.g, m.x, Bracket(Plus, b), t, sp, stop, stop) && sp <= rest <= stop
    ensures Matches(m.g, m.x, t, rest, stop)
    ensures pm[..] == DissectedBody(m.g, m.x, Plus, b, sp, rest, old(pm[..]))
    decreases 2 + Len(b), 0
  {
    hide Split;
    rest := FindSplit(m, sp, stop, ss, es, stopst, Bracket(Plus, b), t);
    var ssp, sep := FindLastPass(m, sp, rest, ss + 1, es - 1, b);
    var dp := Dissect(m, pm, ssp, sep, ss + 1, es - 1, b);
  }

  /** Find the last match of the innards. */
  method FindLastPass(m: Match, sp: int, rest: int, ssub: nat, esub: nat, ghost b: Re) returns (ssp: int, send: int)
    requires m.Valid() && m.Exact() && m.x.begin <= sp <= rest <= m.x.end
    requires m.Seg(ssub, esub).Codes(b) && NodeMatches(m.g, m.x, Bracket(Plus, b), sp, rest)
    modifies m.st, m.st.bytes, m.tmp, m.tmp.bytes
    ensures m.Valid()
    ensures (ssp, send) == LastPass(m.g, m.x, b, sp, sp, rest)
    ensures sp <= ssp <= send <= rest && Matches(m.g, m.x, b, ssp, send)
  {
    hide Scannable;
    LoopHasPass(m.g, m.x, b, sp, rest);
    LastPassMatches(m.g, m.x, b, sp, sp, rest);
    ssp := sp;
    var oldssp := ssp;
    var sep: Option<int>;
    while true
      invariant m.Valid() && sp <= oldssp <= ssp <= rest
      invariant LastPass(m.g, m.x, b, sp, sp, rest) == LastPass(m.g, m.x, b, oldssp, ssp, rest)
      decreases rest - ssp
    {
      sep := Slow(m, ssp, rest, ssub, esub, b);
      LongestMatchIsGreatest(m.g, m.x, b, ssp, rest);
      if sep == None || sep == Some(ssp) { break; }
      oldssp := ssp;
      ssp := sep.value;
    }
    if sep == None {
      // the pass before was the last one
      sep := Some(ssp);
      ssp := oldssp;
    }
    send := sep.value;
  }

  method DissectChoice(m: Match, pm: array<RegMatch>, sp: int, stop: int, ss: nat, es: nat, stopst: nat, ghost n: Node, ghost t: Re)
    returns (rest: int)
    requires m.Valid() && m.Exact() && m.x.begin <= sp <= stop <= m.x.end && n.Choice?
    requires 1 <= ss && es == ss + NodeLen(n) && stopst == es + Len(t) < |m.g.strip|
    requires NodeHolds(m.g.strip, ss, n) && Holds(m.g.strip, es, t)
    requires Matches(m.g, m.x, Then(n, t), sp, stop) && NodeFits(n, pm.Length)
    modifies m.st, m.st.bytes, m.tmp, m.tmp.bytes, pm
    ensures m.Valid()
    ensures rest == Split(m.g, m.x, n, t, sp, stop, stop) && sp <= rest <= stop
    ensures Matches(m.g, m.x, t, rest, stop)
    ensures pm[..] == Dissected(m.g, m.x, FirstBranch(m.g, m.x, n.first, n.rest, sp, rest), sp, rest, old(pm[..]))
    decreases NodeLen(n), 0
  {
    hide Split;
    rest := FindSplit(m, sp, stop, ss, es, stopst, n, t);
    BranchShorter(m.g, m.x, n.first, n.rest, sp, rest);
    var ssub, esub := FindBranch(m, sp, rest, ss, pm.Length, n);
    var dp := Dissect(m, pm, sp, rest, ssub, esub, FirstBranch(m.g, m.x, n.first, n.rest, sp, rest));
  }

  /** The branch `f` of a choice lies at [ssub, esub); unless it is the last, `more` follows. */
  ghost predicate AtBranch(g: Guts, ssub: int, esub: int, f: Re, more: Alts, last: bool, size: nat) {
    && 1 <= ssub && Holds(g.strip, ssub, f) && esub == ssub + Len(f) < |g.strip| && Fits(f, size)
    && (!last ==> AltsHold(g.strip, esub + 1, more) && AltsFit(more, size) && esub + 1 + AltsLen(more) < |g.strip|)
  }

  lemma BranchMoves(g: Guts, ssub: int, esub: int, f: Re, more: Alts, size: nat)
    requires AtBranch(g, ssub, esub, f, more, false, size)
    ensures g.strip[esub + 1].OOR2? && 1 <= g.strip[esub + 1].fwd && esub + 1 + g.strip[esub + 1].fwd < |g.strip|
    ensures g.strip[esub + 1 + g.strip[esub + 1].fwd].OOR2? <==> more.Or?
    ensures var e := esub + 1 + g.strip[esub + 1].fwd;
            if more.Or? then AtBranch(g, esub + 2, e - 1, more.re, more.more, false, size)
            else AtBranch(g, esub + 2, e, more.re, more, true, size)
  {
    AltsChain(g, esub + 1, more);
    match more
    case Last(re) =>
      assert Framed(g.strip, esub + 1, OOR2(1 + Len(re)), re, O_CH(2 + Len(re)));
    case Or(re, others) =>
      assert Framed(g.strip, esub + 1, OOR2(2 + Len(re)), re, OOR1(2 + Len(re)));
      assert AltsHold(g.strip, esub + 3 + Len(re), others);
  }

  /** Find the first matching branch. */
  method FindBranch(m: Match, sp: int, rest: int, ss: nat, ghost size: nat, ghost n: Node) returns (ssub: nat, esub: nat)
    requires m.Valid() && m.Exact() && m.x.begin <= sp <= rest <= m.x.end && n.Choice?
    requires 1 <= ss && ss + NodeLen(n) < |m.g.strip| && NodeHolds(m.g.strip, ss, n)
    requires NodeMatches(m.g, m.x, n, sp, rest) && NodeFits(n, size)
    modifies m.st, m.st.bytes, m.tmp, m.tmp.bytes
    ensures m.Valid()
    ensures var branch := FirstBranch(m.g, m.x, n.first, n.rest, sp, rest);
            m.Seg(ssub, esub).Codes(branch) && Fits(branch, size) && Matches(m.g, m.x, branch, sp, rest)
  {
    hide Scannable, Matches, LongestMatch, Longest;
    ghost var f, more, last := n.first, n.rest, false;
    FirstBranchMatches(m.g, m.x, f, more, sp, rest);
    AltsHoldBounds(m.g.strip, ss + 2 + Len(f), more);
    ssub := ss + 1;
    esub := ss + m.g.strip[ss].fwd - 1;
    while true
      invariant m.Valid() && AtBranch(m.g, ssub, esub, f, more, last, size)
      invariant FirstBranch(m.g, m.x, n.first, n.rest, sp, rest) ==
                if last then f else FirstBranch(m.g, m.x, f, more, sp, rest)
      decreases !last, more
    {
      var end := Slow(m, sp, rest, ssub, esub, f);
      LongestMatchIsGreatest(m.g, m.x, f, sp, rest);
      if end == Some(rest) { break; }
      BranchMoves(m.g, ssub, esub, f, more, size);
      esub := esub + 1;
      ssub := esub + 1;
      esub := esub + m.g.strip[esub].fwd;
      f := more.re;
      if m.g.strip[esub].OOR2? {
        esub := esub - 1;
        more := more.more;
      } else {
        last := true;
      }
    }
  }

  /** Where the subexpression at ss ends. */
  method SubEnd(g: Guts, ss: nat, ghost n: Node) returns (es: nat)
    requires NodeHolds(g.strip, ss, n)
    ensures es == if n.Bracket? && (n.kind.Group? || n.kind.Back?) then ss + 1 else ss + NodeLen(n)
  {
    NodeHoldsBounds(g.strip, ss, n);
    es := ss;
    if g.strip[es].OPLUS_? || g.strip[es].OQUEST_? {
      es := es + g.strip[es].fwd;
    } else if g.strip[es].OCH_? {
      AltsChain(g, ss + 2 + Len(n.first), n.rest);
      es := es + g.strip[es].fwd;
      while !g.strip[es].O_CH?
        invariant ss <= es < |g.strip| && ChoiceEnd(g, es) == ss + NodeLen(n) - 1
        invariant ss + NodeLen(n) <= |g.strip| && g.strip[ss + NodeLen(n) - 1].O_CH?
        decreases |g.strip| - es
      {
        es := es + g.strip[es].fwd;
      }
    }
    es := es + 1;
  }

  /** The operator tells the node. */
  lemma OpTells(s: seq<Op>, ss: int, n: Node)
    requires NodeHolds(s, ss, n)
    ensures 0 <= ss < |s|
    ensures s[ss].OQUEST_? <==> n.Bracket? && n.kind.Quest?
    ensures s[ss].OPLUS_? <==> n.Bracket? && n.kind.Plus?
    ensures s[ss].OCH_? <==> n.Choice?
  {
  }

  method Dissect(m: Match, pm: array<RegMatch>, start: int, stop: int, startst: nat, stopst: nat, ghost re: Re)
    returns (sp: int)
    requires m.Valid() && m.Exact() && m.Seg(startst, stopst).Codes(re) && Fits(re, pm.Length)
    requires m.x.begin <= start <= stop <= m.x.end && Matches(m.g, m.x, re, start, stop)
    modifies m.st, m.st.bytes, m.tmp, m.tmp.bytes, pm
    ensures m.Valid() && sp == stop
    ensures pm[..] == Dissected(m.g, m.x, re, start, stop, old(pm[..]))
    decreases Len(re), 1
  {
    hide Scannable, Split, Dissected, DissectedBody, FirstBranch, Matches, NodeHolds;
    ghost var todo := re;
    sp := start;
    var ss := startst;
    while ss < stopst
      invariant m.Valid() && startst <= ss && ss + Len(todo) == stopst && start <= sp <= stop
      invariant Holds(m.g.strip, ss, todo) && Fits(todo, pm.Length)
      invariant Matches(m.g, m.x, todo, sp, stop)
      invariant Dissected(m.g, m.x, re, start, stop, old(pm[..])) == Dissected(m.g, m.x, todo, sp, stop, pm[..])
    {
      ghost var n, t := todo.head, todo.tail;
      assert todo == Then(n, t);
      var es := SubEnd(m.g, ss, n);
      OpTells(m.g.strip, ss, n);
      HoldsBounds(m.g.strip, ss + NodeLen(n), t);
      var s := m.g.strip[ss];
      if n.Choice? || (n.Bracket? && !n.kind.Group?) { PartFirst(m.g, m.x, n, t, sp, stop, pm[..]); }
      if s.OQUEST_? {
        sp := DissectQuest(m, pm, sp, stop, ss, es, stopst, n.body, t);
        todo := t;
      } else if s.OPLUS_? {
        sp := DissectPlus(m, pm, sp, stop, ss, es, stopst, n.body, t);
        todo := t;
      } else if s.OCH_? {
        sp := DissectChoice(m, pm, sp, stop, ss, es, stopst, n, t);
        todo := t;
      } else {
        sp, todo := DissectEasy(m, pm, sp, stop, ss, n, t);
      }
      ss := es;
    }
    Ended(m.g, m.x, todo, sp, stop, pm[..]);
  }

  /** A loop, an option or a choice first takes its own part. */
  lemma PartFirst(g: Guts, x: Subject, n: Node, t: Re, sp: int, stop: int, pm: seq<RegMatch>)
    requires n.Choice? || (n.Bracket? && !n.kind.Group?)
    ensures var rest := Split(g, x, n, t, sp, stop, stop);
            Dissected(g, x, Then(n, t), sp, stop, pm) ==
            Dissected(g, x, t, rest, stop,
                      if n.Choice? then Dissected(g, x, FirstBranch(g, x, n.first, n.rest, sp, rest), sp, rest, pm)
                      else DissectedBody(g, x, n.kind, n.body, sp, rest, pm))
  {
  }

  lemma Ended(g: Guts, x: Subject, todo: Re, sp: int, stop: int, pm: seq<RegMatch>)
    requires Len(todo) == 0 && Matches(g, x, todo, sp, stop)
    ensures sp == stop && Dissected(g, x, todo, sp, stop, pm) == pm
  {
  }

  /** The cases that take one operator. */
  method DissectEasy(m: Match, pm: array<RegMatch>, sp: int, stop: int, ss: nat, ghost n: Node, ghost t: Re)
    returns (q: int, ghost todo: Re)
    requires m.x.Valid() && m.x.begin <= sp <= stop <= m.x.end
    requires Holds(m.g.strip, ss, Then(n, t)) && NodeHolds(m.g.strip, ss, n) && 0 <= ss < |m.g.strip|
    requires var s := m.g.strip[ss]; !s.OQUEST_? && !s.OPLUS_? && !s.OCH_?
    requires Matches(m.g, m.x, Then(n, t), sp, stop) && Fits(Then(n, t), pm.Length)
    modifies pm
    ensures sp <= q <= stop && Matches(m.g, m.x, todo, q, stop)
    ensures Holds(m.g.strip, ss + 1, todo) && 1 + Len(todo) == Len(Then(n, t)) && Fits(todo, pm.Length)
    ensures Dissected(m.g, m.x, Then(n, t), sp, stop, old(pm[..])) == Dissected(m.g, m.x, todo, q, stop, pm[..])
  {
    var s := m.g.strip[ss];
    q := sp;
    ghost var k := ThenSplits(m.g, m.x, n, t, sp, stop);
    MatchBounds(m.g, m.x, t, k, stop);
    if s.OLPAREN? {
      pm[s.paren] := pm[s.paren].(so := sp);
      todo := GroupOpens(m.g, m.x, ss, s.paren, n.body, t, pm.Length, sp, stop);
    } else {
      todo := t;
      if s.ORPAREN? {
        pm[s.paren] := pm[s.paren].(eo := sp);
      } else if s.OCHAR? || s.OANY? || s.OANYOF? {
        q := sp + 1;
      }
    }
  }

  /** Past a left parenthesis: the body, the right parenthesis and what follows. */
  lemma GroupOpens(g: Guts, x: Subject, ss: nat, i: nat, b: Re, t: Re, size: nat, sp: int, stop: int) returns (todo: Re)
    requires Holds(g.strip, ss, Then(Bracket(Group(i), b), t)) && Fits(Then(Bracket(Group(i), b), t), size)
    requires Matches(g, x, Then(Bracket(Group(i), b), t), sp, stop)
    ensures todo == Append(b, Then(One(Rparen(i)), t)) && Holds(g.strip, ss + 1, todo)
    ensures Matches(g, x, todo, sp, stop) && Fits(todo, size) && Len(todo) == 1 + Len(b) + Len(t)
  {
    var behind := Then(One(Rparen(i)), t);
    assert Len(behind) == 1 + Len(t);
    assert ss + NodeLen(Bracket(Group(i), b)) == ss + 1 + Len(b) + 1;
    assert Framed(g.strip, ss, OLPAREN(i), b, ORPAREN(i)) && NodeHolds(g.strip, ss + 1 + Len(b), One(Rparen(i)));
    todo := Append(b, behind);
    AppendHolds(g.strip, ss + 1, b, behind);
    AppendFits(b, behind, size);
    var k := ThenSplits(g, x, Bracket(Group(i), b), t, sp, stop);
    ThenMatches(g, x, One(Rparen(i)), t, k, k, stop);
    assert Matches(g, x, b, sp, k) && Matches(g, x, behind, k, stop);
    AppendMatches(g, x, b, behind, sp, stop);
  }
}
