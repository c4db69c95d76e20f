/** The compiled regular expression: a strip of operators, as regcomp() leaves it for the
    matching engine, and the transitions that the engine reads off it. */
module Strip {

  /** One strip operator with its operand.  Forward and backward operands are offsets. */
  datatype Op =
    | OEND
    | OCHAR(c: char)
    | OBOL | OEOL
    | OANY | OANYOF(setno: nat)
    | OBACK_(paren: nat) | O_BACK(paren: nat)
    | OPLUS_(fwd: nat) | O_PLUS(back: nat)
    | OQUEST_(fwd: nat) | O_QUEST(back: nat)
    | OLPAREN(paren: nat) | ORPAREN(paren: nat)
    | OCH_(fwd: nat) | OOR1(back: nat) | OOR2(fwd: nat) | O_CH(back: nat)
    | OBOW | OEOW

  /** The compiled-expression structure.  An empty `must` stands for a null pointer. */
  datatype Guts = Guts(
    strip: seq<Op>,
    sets: seq<set<char>>,
    nosub: bool,
    newline: bool,
    firststate: nat,
    laststate: nat,
    nbol: nat,
    neol: nat,
    must: string,
    nsub: nat,
    backrefs: bool,
    nplus: nat)

  /** What a step consumes: a character, or one of the codes above CHAR_MAX. */
  datatype Code = Char(c: char) | BOL | EOL | BOLEOL | NOTHING | BOW | EOW

  /** CHIN: is the character in set number `setno`? */
  predicate ChIn(g: Guts, setno: nat, c: char) {
    setno < |g.sets| && c in g.sets[setno]
  }

  /** Does this operator let a state through, to the next operator, on this code? */
  predicate Consumes(g: Guts, op: Op, ch: Code) {
    match op
    case OCHAR(c) => ch == Char(c)
    case OBOL => ch == BOL || ch == BOLEOL
    case OEOL => ch == EOL || ch == BOLEOL
    case OANY => ch.Char?
    case OANYOF(n) => ch.Char? && ChIn(g, n, ch.c)
    case OBOW => ch == BOW
    case OEOW => ch == EOW
    case _ => false
  }

  /** The end of the chain of OOR2 operators that begins at p: the O_CH of a choice. */
  function ChoiceEnd(g: Guts, p: int): (e: int)
    ensures p <= e
    decreases |g.strip| - p
  {
    if 0 <= p < |g.strip| && g.strip[p].OOR2? && g.strip[p].fwd > 0
    then ChoiceEnd(g, p + g.strip[p].fwd)
    else p
  }

  /** The operators that only characters, or line and word boundaries, get past. */
  predicate IsConsuming(op: Op) {
    op.OCHAR? || op.OBOL? || op.OEOL? || op.OBOW? || op.OEOW? || op.OANY? || op.OANYOF?
  }

  /** The moves that consume nothing. */
  predicate EmptyEdge(g: Guts, p: int, q: int) {
    0 <= p < |g.strip| &&
    var op := g.strip[p];
    if op.O_PLUS? then q == p + 1 || q == p - op.back
    else if op.OQUEST_? || op.OCH_? then q == p + 1 || q == p + op.fwd
    else if op.OOR1? then q == ChoiceEnd(g, p + 1)
    else if op.OOR2? then
      q == p + 1 || (q == p + op.fwd && p + op.fwd < |g.strip| && !g.strip[p + op.fwd].O_CH?)
    else !IsConsuming(op) && !op.OEND? && q == p + 1
  }

  /** Every operator of the segment [lo, hi) keeps its moves, and the operands the scan
      relies on, inside the segment. */
  ghost predicate Scannable(g: Guts, lo: int, hi: int) {
    && 1 <= lo <= hi < |g.strip|
    && forall p | lo <= p < hi :: OpOk(g, lo, hi, p)
  }

  ghost predicate OpOk(g: Guts, lo: int, hi: int, p: int)
    requires 1 <= lo <= p < hi < |g.strip|
  {
    && !g.strip[p].OEND?
    && (forall q | EmptyEdge(g, p, q) :: lo <= q <= hi)
    && (g.strip[p].O_PLUS? ==> 1 <= g.strip[p].back)
    && (g.strip[p].OOR1? ==> p + 1 <= hi && ChoiceEnd(g, p + 1) < hi && g.strip[ChoiceEnd(g, p + 1)].O_CH?)
    && (g.strip[p].OOR2? ==> 1 <= g.strip[p].fwd && p + g.strip[p].fwd < hi)
  }

  /** A state set that no move on `ch`, and no empty move, leads out of. */
  ghost predicate Closed(g: Guts, lo: int, hi: int, ch: Code, s: set<int>)
    requires 0 <= lo <= hi <= |g.strip|
  {
    forall p | p in s && lo <= p < hi :: ClosedAt(g, ch, s, p)
  }

  ghost predicate ClosedAt(g: Guts, ch: Code, s: set<int>, p: int)
    requires 0 <= p < |g.strip|
  {
    && (Consumes(g, g.strip[p], ch) ==> p + 1 in s)
    && (forall q | EmptyEdge(g, p, q) :: q in s)
  }

  /** States reached from `s` by consuming `ch`. */
  ghost function Shift(g: Guts, lo: int, hi: int, ch: Code, s: set<int>): set<int>
    requires 0 <= lo <= hi <= |g.strip|
  {
    set p | p in s && lo <= p < hi && Consumes(g, g.strip[p], ch) :: p + 1
  }

  ghost predicate Inside(lo: int, hi: int, s: set<int>) {
    forall p | p in s :: lo <= p <= hi
  }

  /** The least state set that holds `s` and is closed under empty moves and moves on `ch`. */
  ghost function Close(g: Guts, lo: int, hi: int, ch: Code, s: set<int>): set<int>
    requires 0 <= lo <= hi <= |g.strip|
  {
    set q | lo <= q <= hi && InAllClosed(g, lo, hi, ch, s, q)
  }

  ghost predicate InAllClosed(g: Guts, lo: int, hi: int, ch: Code, s: set<int>, q: int)
    requires 0 <= lo <= hi <= |g.strip|
  {
    forall c: set<int> | s <= c && Closed(g, lo, hi, ch, c) :: q in c
  }

  lemma CloseIsLeast(g: Guts, lo: int, hi: int, ch: Code, s: set<int>, c: set<int>)
    requires 0 <= lo <= hi <= |g.strip|
    requires s <= c && Closed(g, lo, hi, ch, c)
    ensures Close(g, lo, hi, ch, s) <= c
  {
  }

  lemma CloseIsClosed(g: Guts, lo: int, hi: int, ch: Code, s: set<int>)
    requires Scannable(g, lo, hi) && Inside(lo, hi, s)
    ensures s <= Close(g, lo, hi, ch, s) && Inside(lo, hi, Close(g, lo, hi, ch, s))
    ensures Closed(g, lo, hi, ch, Close(g, lo, hi, ch, s))
  {
    var r := Close(g, lo, hi, ch, s);
    forall p | p in r && lo <= p < hi ensures ClosedAt(g, ch, r, p) {
      assert OpOk(g, lo, hi, p);
      if Consumes(g, g.strip[p], ch) {
        forall c: set<int> | s <= c && Closed(g, lo, hi, ch, c) ensures p + 1 in c {
          assert ClosedAt(g, ch, c, p);
        }
      }
      forall q | EmptyEdge(g, p, q) ensures q in r {
        forall c: set<int> | s <= c && Closed(g, lo, hi, ch, c) ensures q in c {
          assert ClosedAt(g, ch, c, p);
        }
      }
    }
  }

  /** A closed superset inside the closure is the closure. */
  lemma CloseUnique(g: Guts, lo: int, hi: int, ch: Code, s: set<int>, r: set<int>)
    requires 0 <= lo <= hi <= |g.strip|
    requires s <= r <= Close(g, lo, hi, ch, s) && Closed(g, lo, hi, ch, r)
    ensures r == Close(g, lo, hi, ch, s)
  {
    CloseIsLeast(g, lo, hi, ch, s, r);
  }

  lemma CloseMonotone(g: Guts, lo: int, hi: int, ch: Code, s: set<int>, t: set<int>)
    requires Scannable(g, lo, hi) && s <= t && Inside(lo, hi, t)
    ensures Close(g, lo, hi, ch, s) <= Close(g, lo, hi, ch, t)
  {
    CloseIsClosed(g, lo, hi, ch, t);
    CloseIsLeast(g, lo, hi, ch, s, Close(g, lo, hi, ch, t));
  }

  lemma CloseUnion(g: Guts, lo: int, hi: int, ch: Code, s: set<int>, t: set<int>)
    requires Scannable(g, lo, hi) && Inside(lo, hi, s) && Inside(lo, hi, t)
    ensures Close(g, lo, hi, ch, s + t) == Close(g, lo, hi, ch, s) + Close(g, lo, hi, ch, t)
  {
    var r := Close(g, lo, hi, ch, s) + Close(g, lo, hi, ch, t);
    CloseIsClosed(g, lo, hi, ch, s);
    CloseIsClosed(g, lo, hi, ch, t);
    CloseMonotone(g, lo, hi, ch, s, s + t);
    CloseMonotone(g, lo, hi, ch, t, s + t);
    assert Closed(g, lo, hi, ch, r) by {
      forall p | p in r && lo <= p < hi ensures ClosedAt(g, ch, r, p) {
        if p in Close(g, lo, hi, ch, s) {
          assert ClosedAt(g, ch, Close(g, lo, hi, ch, s), p);
        } else {
          assert ClosedAt(g, ch, Close(g, lo, hi, ch, t), p);
        }
      }
    }
    CloseUnique(g, lo, hi, ch, s + t, r);
  }
}
