/** Regular expressions as trees, the text they are matched against, and the language they
    denote.  A tree stands for the strip that regcomp() emits for it (`Holds`, `Emit`). */
module Regex {
  import opened Strip

  /** A single operator.  `Rparen` is a right parenthesis on its own: it shows up only in
      segments that begin inside a group. */
  datatype Atom = Chr(c: char) | Any | AnyOf(setno: nat) | Bol | Eol | Rparen(i: nat)

  /** What is done with a bracketed part.  `Back` brackets the copy of its group's body that
      the strip carries for a back reference. */
  datatype Kind = Group(i: nat) | Plus | Quest | Back(i: nat)

  datatype Node =
    | One(atom: Atom)
    | Bracket(kind: Kind, body: Re)
    | Choice(first: Re, rest: Alts)

  /** A concatenation.  `src` is the place in the pattern where it ends; nothing depends on it. */
  datatype Re = End(src: nat) | Then(head: Node, tail: Re)

  /** The second and later branches of a choice. */
  datatype Alts = Last(re: Re) | Or(re: Re, more: Alts)

  /** The string being searched, as offsets from its first byte.  `begin` and `end` are
      `beginp` and `endp`. */
  datatype Subject = Subject(text: string, begin: int, end: int, notbol: bool, noteol: bool) {
    ghost predicate Valid() {
      0 <= begin <= end <= |text|
    }
  }

  // ----- the strip of a tree -----

  function Len(re: Re): nat {
    match re
    case End(_) => 0
    case Then(n, t) => NodeLen(n) + Len(t)
  }

  function NodeLen(n: Node): nat {
    match n
    case One(_) => 1
    case Bracket(_, b) => 2 + Len(b)
    case Choice(f, r) => 2 + Len(f) + AltsLen(r)
  }

  function AltsLen(a: Alts): nat {
    match a
    case Last(re) => 2 + Len(re)
    case Or(re, more) => 2 + Len(re) + AltsLen(more)
  }

  function AtomOp(a: Atom): Op {
    match a
    case Chr(c) => OCHAR(c)
    case Any => OANY
    case AnyOf(m) => OANYOF(m)
    case Bol => OBOL
    case Eol => OEOL
    case Rparen(i) => ORPAREN(i)
  }

  /** The operator in front of a bracketed part of length n, and the one behind it. */
  function Opener(k: Kind, n: nat): Op {
    match k
    case Group(i) => OLPAREN(i)
    case Plus => OPLUS_(1 + n)
    case Quest => OQUEST_(1 + n)
    case Back(i) => OBACK_(i)
  }

  function Closer(k: Kind, n: nat): Op {
    match k
    case Group(i) => ORPAREN(i)
    case Plus => O_PLUS(1 + n)
    case Quest => O_QUEST(1 + n)
    case Back(i) => O_BACK(i)
  }

  /** The strip holds the code of `re` at `pc`. */
  ghost predicate Holds(s: seq<Op>, pc: int, re: Re)
    decreases re, 0
  {
    match re
    case End(_) => 0 <= pc <= |s|
    case Then(n, t) => NodeHolds(s, pc, n) && Holds(s, pc + NodeLen(n), t)
  }

  ghost predicate NodeHolds(s: seq<Op>, pc: int, n: Node)
    decreases n, 0
  {
    match n
    case One(a) => 0 <= pc < |s| && s[pc] == AtomOp(a)
    case Bracket(k, b) => Framed(s, pc, Opener(k, Len(b)), b, Closer(k, Len(b)))
    case Choice(f, r) =>
      Framed(s, pc, OCH_(2 + Len(f)), f, OOR1(1 + Len(f))) && AltsHold(s, pc + 2 + Len(f), r)
  }

  ghost predicate AltsHold(s: seq<Op>, pc: int, a: Alts)
    decreases a, 0
  {
    match a
    case Last(re) => Framed(s, pc, OOR2(1 + Len(re)), re, O_CH(2 + Len(re)))
    case Or(re, more) =>
      Framed(s, pc, OOR2(2 + Len(re)), re, OOR1(2 + Len(re))) && AltsHold(s, pc + 2 + Len(re), more)
  }

  /** The code of `b` with one operator before it and one behind it. */
  ghost predicate Framed(s: seq<Op>, pc: int, before: Op, b: Re, behind: Op)
    decreases b, 1
  {
    && 0 <= pc && pc + 2 + Len(b) <= |s|
    && s[pc] == before
    && Holds(s, pc + 1, b)
    && s[pc + 1 + Len(b)] == behind
  }

  lemma ThenHolds(s: seq<Op>, pc: int, n: Node, t: Re)
    requires NodeHolds(s, pc, n) && Holds(s, pc + NodeLen(n), t)
    ensures Holds(s, pc, Then(n, t)) && Len(Then(n, t)) == NodeLen(n) + Len(t)
  {
  }

  lemma {:induction false} HoldsBounds(s: seq<Op>, pc: int, re: Re)
    requires Holds(s, pc, re)
    ensures 0 <= pc && pc + Len(re) <= |s|
    decreases re
  {
    match re
    case End(_) =>
    case Then(n, t) => NodeHoldsBounds(s, pc, n); HoldsBounds(s, pc + NodeLen(n), t);
  }

  lemma {:induction false} NodeHoldsBounds(s: seq<Op>, pc: int, n: Node)
    requires NodeHolds(s, pc, n)
    ensures 0 <= pc && pc + NodeLen(n) <= |s|
    decreases n
  {
    if n.Choice? { AltsHoldBounds(s, pc + 2 + Len(n.first), n.rest); }
  }

  lemma {:induction false} AltsHoldBounds(s: seq<Op>, pc: int, a: Alts)
    requires AltsHold(s, pc, a)
    ensures 0 <= pc && pc + AltsLen(a) <= |s|
    decreases a
  {
    if a.Or? { AltsHoldBounds(s, pc + 2 + Len(a.re), a.more); }
  }

  // ----- emission -----

  /** The strip `s` with the code of `re` emitted at its end. */
  function Emit(s: seq<Op>, re: Re): seq<Op>
    decreases re, 0
  {
    match re
    case End(_) => s
    case Then(n, t) => Emit(EmitNode(s, n), t)
  }

  function EmitNode(s: seq<Op>, n: Node): seq<Op>
    decreases n, 0
  {
    match n
    case One(a) => s + [AtomOp(a)]
    case Bracket(k, b) => EmitFramed(s, Opener(k, Len(b)), b, Closer(k, Len(b)))
    case Choice(f, r) => EmitAlts(EmitFramed(s, OCH_(2 + Len(f)), f, OOR1(1 + Len(f))), r)
  }

  function EmitAlts(s: seq<Op>, a: Alts): seq<Op>
    decreases a, 0
  {
    match a
    case Last(re) => EmitFramed(s, OOR2(1 + Len(re)), re, O_CH(2 + Len(re)))
    case Or(re, more) => EmitAlts(EmitFramed(s, OOR2(2 + Len(re)), re, OOR1(2 + Len(re))), more)
  }

  function EmitFramed(s: seq<Op>, before: Op, b: Re, behind: Op): seq<Op>
    decreases b, 1
  {
    Emit(s + [before], b) + [behind]
  }

  ghost predicate Extends(s: seq<Op>, r: seq<Op>, n: nat) {
    |r| == |s| + n && r[..|s|] == s
  }

  lemma ExtendsThen(s: seq<Op>, m: seq<Op>, r: seq<Op>, j: nat, k: nat)
    requires Extends(s, m, j) && Extends(m, r, k)
    ensures Extends(s, r, j + k)
  {
    assert r[..|s|] == r[..|m|][..|s|];
  }

  lemma {:induction false} HoldsExtends(s: seq<Op>, r: seq<Op>, n: nat, pc: int, re: Re)
    requires Holds(s, pc, re) && Extends(s, r, n)
    ensures Holds(r, pc, re)
    decreases re, 0
  {
    if re.Then? {
      NodeHoldsExtends(s, r, n, pc, re.head);
      HoldsExtends(s, r, n, pc + NodeLen(re.head), re.tail);
    }
  }

  lemma {:induction false} NodeHoldsExtends(s: seq<Op>, r: seq<Op>, n: nat, pc: int, h: Node)
    requires NodeHolds(s, pc, h) && Extends(s, r, n)
    ensures NodeHolds(r, pc, h)
    decreases h, 0
  {
    match h
    case One(_) => assert r[..|s|][pc] == r[pc];
    case Bracket(k, b) => FramedExtends(s, r, n, pc, Opener(k, Len(b)), b, Closer(k, Len(b)));
    case Choice(f, a) =>
      FramedExtends(s, r, n, pc, OCH_(2 + Len(f)), f, OOR1(1 + Len(f)));
      AltsHoldExtends(s, r, n, pc + 2 + Len(f), a);
  }

  lemma {:induction false} AltsHoldExtends(s: seq<Op>, r: seq<Op>, n: nat, pc: int, a: Alts)
    requires AltsHold(s, pc, a) && Extends(s, r, n)
    ensures AltsHold(r, pc, a)
    decreases a, 0
  {
    match a
    case Last(re) => FramedExtends(s, r, n, pc, OOR2(1 + Len(re)), re, O_CH(2 + Len(re)));
    case Or(re, more) =>
      FramedExtends(s, r, n, pc, OOR2(2 + Len(re)), re, OOR1(2 + Len(re)));
      AltsHoldExtends(s, r, n, pc + 2 + Len(re), more);
  }

  lemma {:induction false} FramedExtends(s: seq<Op>, r: seq<Op>, n: nat, pc: int, before: Op, b: Re, behind: Op)
    requires Framed(s, pc, before, b, behind) && Extends(s, r, n)
    ensures Framed(r, pc, before, b, behind)
    decreases b, 1
  {
    HoldsExtends(s, r, n, pc + 1, b);
    assert r[..|s|][pc] == r[pc] && r[..|s|][pc + 1 + Len(b)] == r[pc + 1 + Len(b)];
  }

  /** What is emitted for a tree is the code that `Holds` describes. */
  lemma {:induction false} EmitHolds(s: seq<Op>, re: Re)
    ensures Extends(s, Emit(s, re), Len(re)) && Holds(Emit(s, re), |s|, re)
    decreases re, 0
  {
    match re
    case End(_) =>
    case Then(n, t) =>
      var m := EmitNode(s, n);
      EmitNodeHolds(s, n);
      EmitHolds(m, t);
      ExtendsThen(s, m, Emit(m, t), NodeLen(n), Len(t));
      NodeHoldsExtends(m, Emit(m, t), Len(t), |s|, n);
  }

  lemma {:induction false} EmitNodeHolds(s: seq<Op>, n: Node)
    ensures Extends(s, EmitNode(s, n), NodeLen(n)) && NodeHolds(EmitNode(s, n), |s|, n)
    decreases n, 0
  {
    match n
    case One(_) =>
    case Bracket(k, b) => EmitFramedHolds(s, Opener(k, Len(b)), b, Closer(k, Len(b)));
    case Choice(f, a) =>
      var m := EmitFramed(s, OCH_(2 + Len(f)), f, OOR1(1 + Len(f)));
      EmitFramedHolds(s, OCH_(2 + Len(f)), f, OOR1(1 + Len(f)));
      EmitAltsHold(m, a);
      ExtendsThen(s, m, EmitAlts(m, a), 2 + Len(f), AltsLen(a));
      FramedExtends(m, EmitAlts(m, a), AltsLen(a), |s|, OCH_(2 + Len(f)), f, OOR1(1 + Len(f)));
  }

  lemma {:induction false} EmitAltsHold(s: seq<Op>, a: Alts)
    ensures Extends(s, EmitAlts(s, a), AltsLen(a)) && AltsHold(EmitAlts(s, a), |s|, a)
    decreases a, 0
  {
    hide EmitFramed, Framed, Holds, Extends;
    match a
    case Last(re) => EmitFramedHolds(s, OOR2(1 + Len(re)), re, O_CH(2 + Len(re)));
    case Or(re, more) =>
      var m := EmitFramed(s, OOR2(2 + Len(re)), re, OOR1(2 + Len(re)));
      EmitFramedHolds(s, OOR2(2 + Len(re)), re, OOR1(2 + Len(re)));
      EmitAltsHold(m, more);
      ExtendsThen(s, m, EmitAlts(m, more), 2 + Len(re), AltsLen(more));
      FramedExtends(m, EmitAlts(m, more), AltsLen(more), |s|, OOR2(2 + Len(re)), re, OOR1(2 + Len(re)));
  }

  lemma {:induction false} EmitFramedHolds(s: seq<Op>, before: Op, b: Re, behind: Op)
    ensures Extends(s, EmitFramed(s, before, b, behind), 2 + Len(b))
    ensures Framed(EmitFramed(s, before, b, behind), |s|, before, b, behind)
    decreases b, 1
  {
    var m := s + [before];
    var e := Emit(m, b);
    EmitHolds(m, b);
    assert Extends(s, m, 1) && Extends(e, e + [behind], 1);
    ExtendsThen(s, m, e, 1, Len(b));
    ExtendsThen(s, e, e + [behind], 1 + Len(b), 1);
    HoldsExtends(e, e + [behind], 1, |s| + 1, b);
    assert e[..|m|][|s|] == before;
  }

  function Append(a: Re, b: Re): (r: Re)
    ensures Len(r) == Len(a) + Len(b)
  {
    match a
    case End(_) => b
    case Then(n, t) => Then(n, Append(t, b))
  }

  lemma {:induction false} AppendHolds(s: seq<Op>, pc: int, a: Re, b: Re)
    ensures Holds(s, pc, Append(a, b)) <==> Holds(s, pc, a) && Holds(s, pc + Len(a), b)
    decreases a
  {
    match a
    case End(_) =>
      if Holds(s, pc, b) { HoldsBounds(s, pc, b); }
    case Then(n, t) =>
      AppendHolds(s, pc + NodeLen(n), t, b);
      assert pc + Len(a) == pc + NodeLen(n) + Len(t);
      assert Append(a, b) == Then(n, Append(t, b));
  }

  // ----- the language of a tree -----

  /** Is there a beginning of line at `p`? */
  predicate AtBol(g: Guts, x: Subject, p: int) {
    if p == x.begin then !x.notbol else 0 < p <= |x.text| && x.text[p - 1] == '\n' && g.newline
  }

  /** Is there an end of line at `p`? */
  predicate AtEol(g: Guts, x: Subject, p: int) {
    if p == x.end then !x.noteol else 0 <= p < |x.text| && x.text[p] == '\n' && g.newline
  }

  /** The code the engine steps on between the characters around `p`. */
  function FlagAt(g: Guts, x: Subject, p: int): Code {
    if AtBol(g, x, p) then if AtEol(g, x, p) then BOLEOL else BOL
    else if AtEol(g, x, p) then EOL else NOTHING
  }

  predicate CharAt(x: Subject, p: int) {
    x.begin <= p < x.end && 0 <= p < |x.text|
  }

  /** `re` matches the text between `i` and `j`.  A back reference matches what its group's
      pattern matches: the automaton ignores the captured text. */
  ghost predicate Matches(g: Guts, x: Subject, re: Re, i: int, j: int)
    decreases re, 0, 0
  {
    match re
    case End(_) => i == j
    case Then(n, t) => exists k :: NodeMatches(g, x, n, i, k) && Matches(g, x, t, k, j)
  }

  predicate AtomMatches(g: Guts, x: Subject, a: Atom, i: int, j: int) {
    match a
    case Chr(c) => j == i + 1 && CharAt(x, i) && x.text[i] == c
    case Any => j == i + 1 && CharAt(x, i)
    case AnyOf(m) => j == i + 1 && CharAt(x, i) && ChIn(g, m, x.text[i])
    case Bol => i == j && AtBol(g, x, i)
    case Eol => i == j && AtEol(g, x, i)
    case Rparen(_) => i == j
  }

  ghost predicate NodeMatches(g: Guts, x: Subject, n: Node, i: int, j: int)
    decreases n, 0, 0
  {
    match n
    case One(a) => AtomMatches(g, x, a, i, j)
    case Bracket(k, b) =>
      if k.Plus? then exists n: nat :: Repeats(g, x, b, n, i, j) && n >= 1
      else (k.Quest? && i == j) || Matches(g, x, b, i, j)
    case Choice(f, r) => Matches(g, x, f, i, j) || AltsMatch(g, x, r, i, j)
  }

  ghost predicate AltsMatch(g: Guts, x: Subject, a: Alts, i: int, j: int)
    decreases a, 0, 0
  {
    match a
    case Last(re) => Matches(g, x, re, i, j)
    case Or(re, more) => Matches(g, x, re, i, j) || AltsMatch(g, x, more, i, j)
  }

  /** `n` matches of `b` in a row. */
  ghost predicate Repeats(g: Guts, x: Subject, b: Re, n: nat, i: int, j: int)
    decreases b, 1, n
  {
    if n == 0 then i == j
    else exists k :: Matches(g, x, b, i, k) && Repeats(g, x, b, n - 1, k, j)
  }

  lemma ThenMatches(g: Guts, x: Subject, n: Node, t: Re, i: int, k: int, j: int)
    requires NodeMatches(g, x, n, i, k) && Matches(g, x, t, k, j)
    ensures Matches(g, x, Then(n, t), i, j)
  {
  }

  lemma ThenSplits(g: Guts, x: Subject, n: Node, t: Re, i: int, j: int) returns (k: int)
    requires Matches(g, x, Then(n, t), i, j)
    ensures NodeMatches(g, x, n, i, k) && Matches(g, x, t, k, j)
  {
    k :| NodeMatches(g, x, n, i, k) && Matches(g, x, t, k, j);
  }

  lemma RepeatSplits(g: Guts, x: Subject, b: Re, n: nat, i: int, j: int) returns (k: int)
    requires n >= 1 && Repeats(g, x, b, n, i, j)
    ensures Matches(g, x, b, i, k) && Repeats(g, x, b, n - 1, k, j)
  {
    k :| Matches(g, x, b, i, k) && Repeats(g, x, b, n - 1, k, j);
  }

  lemma {:induction false} MatchBounds(g: Guts, x: Subject, re: Re, i: int, j: int)
    requires Matches(g, x, re, i, j)
    ensures i <= j && (i <= x.end ==> j <= x.end)
    decreases re, 0, 0
  {
    match re
    case End(_) =>
    case Then(n, t) =>
      var k :| NodeMatches(g, x, n, i, k) && Matches(g, x, t, k, j);
      NodeBounds(g, x, n, i, k);
      MatchBounds(g, x, t, k, j);
  }

  lemma {:induction false} NodeBounds(g: Guts, x: Subject, n: Node, i: int, j: int)
    requires NodeMatches(g, x, n, i, j)
    ensures i <= j && (i <= x.end ==> j <= x.end)
    decreases n, 0, 0
  {
    match n
    case One(_) =>
    case Bracket(k, b) =>
      if k.Plus? {
        var c: nat :| Repeats(g, x, b, c, i, j) && c >= 1;
        RepeatBounds(g, x, b, c, i, j);
      } else if Matches(g, x, b, i, j) {
        MatchBounds(g, x, b, i, j);
      }
    case Choice(f, r) =>
      if Matches(g, x, f, i, j) { MatchBounds(g, x, f, i, j); } else { AltsBounds(g, x, r, i, j); }
  }

  lemma {:induction false} AltsBounds(g: Guts, x: Subject, a: Alts, i: int, j: int)
    requires AltsMatch(g, x, a, i, j)
    ensures i <= j && (i <= x.end ==> j <= x.end)
    decreases a, 0, 0
  {
    if Matches(g, x, a.re, i, j) { MatchBounds(g, x, a.re, i, j); } else { AltsBounds(g, x, a.more, i, j); }
  }

  lemma {:induction false} RepeatBounds(g: Guts, x: Subject, b: Re, n: nat, i: int, j: int)
    requires Repeats(g, x, b, n, i, j)
    ensures i <= j && (i <= x.end ==> j <= x.end)
    decreases b, 1, n
  {
    if n > 0 {
      var k :| Matches(g, x, b, i, k) && Repeats(g, x, b, n - 1, k, j);
      MatchBounds(g, x, b, i, k);
      RepeatBounds(g, x, b, n - 1, k, j);
    }
  }

  lemma {:induction false} AppendMatches(g: Guts, x: Subject, a: Re, b: Re, i: int, j: int)
    ensures Matches(g, x, Append(a, b), i, j) <==> exists k :: Matches(g, x, a, i, k) && Matches(g, x, b, k, j)
    decreases a
  {
    match a
    case End(_) =>
      if Matches(g, x, b, i, j) { assert Matches(g, x, a, i, i); }
    case Then(n, t) =>
      assert Append(a, b) == Then(n, Append(t, b));
      if Matches(g, x, Append(a, b), i, j) {
        var m := ThenSplits(g, x, n, Append(t, b), i, j);
        AppendMatches(g, x, t, b, m, j);
        var k :| Matches(g, x, t, m, k) && Matches(g, x, b, k, j);
        ThenMatches(g, x, n, t, i, m, k);
      }
      if k :| Matches(g, x, a, i, k) && Matches(g, x, b, k, j) {
        var m := ThenSplits(g, x, n, t, i, k);
        assert Matches(g, x, t, m, k) && Matches(g, x, b, k, j);
        AppendMatches(g, x, t, b, m, j);
        ThenMatches(g, x, n, Append(t, b), i, m, j);
      }
  }
}
