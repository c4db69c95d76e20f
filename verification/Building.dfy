/** Trees and their code, piece by piece: for the concrete expressions of the examples. */
module Building {
  import opened Strip
  import opened Regex

  /** `b*`, the way regcomp() writes it. */
  function Starred(b: Re, src: nat): Node {
    Bracket(Quest, Then(Bracket(Plus, b), End(src)))
  }

  lemma EndCode(s: seq<Op>, pc: int, src: nat)
    requires 0 <= pc <= |s|
    ensures Holds(s, pc, End(src)) && Len(End(src)) == 0
  {
  }

  lemma AtomCode(s: seq<Op>, pc: int, a: Atom, t: Re)
    requires 0 <= pc < |s| && s[pc] == AtomOp(a) && Holds(s, pc + 1, t)
    ensures Holds(s, pc, Then(One(a), t)) && Len(Then(One(a), t)) == 1 + Len(t)
  {
  }

  lemma BracketCode(s: seq<Op>, pc: int, k: Kind, b: Re, t: Re)
    requires 0 <= pc && pc + 2 + Len(b) <= |s| && s[pc] == Opener(k, Len(b)) && s[pc + 1 + Len(b)] == Closer(k, Len(b))
    requires Holds(s, pc + 1, b) && Holds(s, pc + 2 + Len(b), t)
    ensures Holds(s, pc, Then(Bracket(k, b), t)) && Len(Then(Bracket(k, b), t)) == 2 + Len(b) + Len(t)
  {
    assert NodeHolds(s, pc, Bracket(k, b)) by { hide Len; assert Framed(s, pc, Opener(k, Len(b)), b, Closer(k, Len(b))); }
    hide NodeHolds, Opener, Closer;
    ThenHolds(s, pc, Bracket(k, b), t);
  }

  lemma StarCode(s: seq<Op>, pc: int, b: Re, src: nat, t: Re)
    requires 0 <= pc && pc + 4 + Len(b) <= |s| && Holds(s, pc + 2, b) && Holds(s, pc + 4 + Len(b), t)
    requires s[pc] == OQUEST_(3 + Len(b)) && s[pc + 1] == OPLUS_(1 + Len(b))
    requires s[pc + 2 + Len(b)] == O_PLUS(1 + Len(b)) && s[pc + 3 + Len(b)] == O_QUEST(3 + Len(b))
    ensures Holds(s, pc, Then(Starred(b, src), t)) && Len(Then(Starred(b, src), t)) == 4 + Len(b) + Len(t)
  {
    hide Holds, NodeHolds, Len;
    EndCode(s, pc + 3 + Len(b), src);
    BracketCode(s, pc + 1, Plus, b, End(src));
    BracketCode(s, pc, Quest, Then(Bracket(Plus, b), End(src)), t);
  }

  /** A choice between two branches. */
  lemma ChoiceCode(s: seq<Op>, pc: int, f: Re, b: Re, t: Re)
    requires 0 <= pc && pc + 4 + Len(f) + Len(b) <= |s|
    requires Holds(s, pc + 1, f) && Holds(s, pc + 3 + Len(f), b) && Holds(s, pc + 4 + Len(f) + Len(b), t)
    requires s[pc] == OCH_(2 + Len(f)) && s[pc + 1 + Len(f)] == OOR1(1 + Len(f))
    requires s[pc + 2 + Len(f)] == OOR2(1 + Len(b)) && s[pc + 3 + Len(f) + Len(b)] == O_CH(2 + Len(b))
    ensures Holds(s, pc, Then(Choice(f, Last(b)), t)) && Len(Then(Choice(f, Last(b)), t)) == 4 + Len(f) + Len(b) + Len(t)
  {
    assert NodeLen(Choice(f, Last(b))) == 4 + Len(f) + Len(b);
    assert NodeHolds(s, pc, Choice(f, Last(b))) by { hide Len; BranchesCode(s, pc, f, b); }
    hide NodeHolds;
    ThenHolds(s, pc, Choice(f, Last(b)), t);
  }

  lemma BranchesCode(s: seq<Op>, pc: int, f: Re, b: Re)
    requires 0 <= pc && pc + 4 + Len(f) + Len(b) <= |s|
    requires Holds(s, pc + 1, f) && Holds(s, pc + 3 + Len(f), b)
    requires s[pc] == OCH_(2 + Len(f)) && s[pc + 1 + Len(f)] == OOR1(1 + Len(f))
    requires s[pc + 2 + Len(f)] == OOR2(1 + Len(b)) && s[pc + 3 + Len(f) + Len(b)] == O_CH(2 + Len(b))
    ensures NodeHolds(s, pc, Choice(f, Last(b)))
  {
    assert Framed(s, pc, OCH_(2 + Len(f)), f, OOR1(1 + Len(f)));
    assert Framed(s, pc + 2 + Len(f), OOR2(1 + Len(b)), b, O_CH(2 + Len(b)));
    assert AltsHold(s, pc + 2 + Len(f), Last(b));
  }
}
