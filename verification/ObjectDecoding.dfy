/** Following the lengths and offsets of a laid-out wrap leads back to its tree. */
module ObjectDecoding {
  import opened ObjectLayout

  /** One object: a value, a well-known name, an array or procedure, a string, or a name. */
  datatype Record =
    | Fixed(tag: string, val: int)
    | Sys(exec: bool, index: int)
    | Arr(exec: bool, len: nat, off: int)
    | Str(len: nat, off: int)
    | Nam(exec: bool, len: nat, off: int)

  /** The address in a token's `body` field; the fields are cleared when tokens are made. */
  function BodyAdr(m: map<int, int>, id: int): int {
    if id in m then m[id] else 0
  }

  /** How a field is put out. */
  function RecordOf(c: Coding, m: map<int, int>, t: Token): Record {
    match t
    case Scalar(_, tag, val) => Fixed(tag, val)
    case Block(id, exec, body) => Arr(exec, |Tokens(body)|, BodyAdr(m, id))
    case Text(id, kind, text) =>
      if IsKnown(c, t) then Sys(kind.ExecName?, c.known[text])
      else if kind.Plain? || kind.Hex? then Str(|Bytes(c, t)|, BodyAdr(m, id))
      else Nam(kind.ExecName?, |Bytes(c, t)|, BodyAdr(m, id))
  }

  // ----- what a tree means, and what a table decodes to -----

  datatype Obj =
    | Atom(tag: string, val: int)
    | Known(exec: bool, index: int)
    | String(bytes: seq<char>)
    | NameOf(exec: bool, bytes: seq<char>)
    | List(exec: bool, elems: seq<Obj>)

  function Meaning(c: Coding, b: Body): seq<Obj>
    decreases b
  {
    match b
    case Stop(_) => []
    case More(h, t) => [MeaningOf(c, h)] + Meaning(c, t)
  }

  function MeaningOf(c: Coding, t: Token): Obj
    decreases t
  {
    match t
    case Scalar(_, tag, val) => Atom(tag, val)
    case Block(_, exec, body) => List(exec, Meaning(c, body))
    case Text(_, kind, text) =>
      match kind
      case Plain => String(c.chars(text))
      case Hex => String(c.hexChars(text))
      case LitName => if text in c.known then Known(false, c.known[text]) else NameOf(false, c.chars(text))
      case ExecName => if text in c.known then Known(true, c.known[text]) else NameOf(true, c.chars(text))
  }

  function Slice(s: seq<char>, off: int, len: nat): seq<char> {
    if 0 <= off && off + len <= |s| then s[off..off + len] else []
  }

  /** Section 3.14.2 of the PostScript Language Reference, third edition: n objects from the k-th on, eight
      bytes each; offsets count from the first object. */
  function Decode(rs: seq<Record>, bytes: seq<char>, k: nat, n: nat): seq<Obj>
    requires k + n <= |rs|
    decreases |rs| - k, 1
  {
    if n == 0 then [] else [DecodeOne(rs, bytes, k)] + Decode(rs, bytes, k + 1, n - 1)
  }

  function DecodeOne(rs: seq<Record>, bytes: seq<char>, k: nat): Obj
    requires k < |rs|
    decreases |rs| - k, 0
  {
    var size := 8 * |rs|;
    match rs[k]
    case Fixed(tag, val) => Atom(tag, val)
    case Sys(exec, index) => Known(exec, index)
    case Str(len, off) => String(Slice(bytes, off - size, len))
    case Nam(exec, len, off) => NameOf(exec, Slice(bytes, off - size, len))
    case Arr(exec, len, off) =>
      var s := off / 8;
      if s > k && s + len <= |rs| then List(exec, Decode(rs, bytes, s, len)) else List(exec, [])
  }

  // ----- a body in its place -----

  /** What is read at a literal's address are its own bytes. */
  predicate TextOk(c: Coding, m: map<int, int>, bytes: seq<char>, size: nat, t: Token) {
    IsLiteral(c, t) ==> Slice(bytes, BodyAdr(m, t.id) - size, |Bytes(c, t)|) == Bytes(c, t)
  }

  /** And so for all literals of a body. */
  predicate TextsOk(c: Coding, m: map<int, int>, bytes: seq<char>, size: nat, b: Body)
    decreases b
  {
    match b
    case Stop(_) => true
    case More(h, t) => OneOk(c, m, bytes, size, h) && TextsOk(c, m, bytes, size, t)
  }

  predicate OneOk(c: Coding, m: map<int, int>, bytes: seq<char>, size: nat, t: Token)
    decreases t
  {
    TextOk(c, m, bytes, size, t) && (t.Block? ==> TextsOk(c, m, bytes, size, t.body))
  }

  /** The objects of `b` stand from the k-th place on, and those of its arrays where it says. */
  ghost predicate Placed(c: Coding, m: map<int, int>, rs: seq<Record>, b: Body, k: nat)
    decreases b
  {
    k + |Tokens(b)| <= |rs| &&
    match b
    case Stop(_) => true
    case More(h, t) =>
      && rs[k] == RecordOf(c, m, h)
      && (h.Block? ==>
            && h.id in m && m[h.id] % BINOBJ_SIZE == 0 && m[h.id] / BINOBJ_SIZE > k
            && Placed(c, m, rs, h.body, m[h.id] / BINOBJ_SIZE))
      && Placed(c, m, rs, t, k + 1)
  }

  /** What is in its place decodes to what it means exactly when all its literals read right. */
  lemma {:induction false} PlacedDecodes(c: Coding, m: map<int, int>, rs: seq<Record>, bytes: seq<char>, b: Body, k: nat)
    requires Placed(c, m, rs, b, k)
    ensures k + |Tokens(b)| <= |rs|
    ensures Decode(rs, bytes, k, |Tokens(b)|) == Meaning(c, b) <==> TextsOk(c, m, bytes, BINOBJ_SIZE * |rs|, b)
    decreases b
  {
    if b.More? {
      PlacedDecodes(c, m, rs, bytes, b.tail, k + 1);
      if b.head.Block? { PlacedDecodes(c, m, rs, bytes, b.head.body, m[b.head.id] / BINOBJ_SIZE); }
      hide Placed, Tokens, DecodeOne, MeaningOf, OneOk, RecordOf;
      OneDecodes(c, m, rs, bytes, b.head, k);
      DecodeMore(c, rs, bytes, b, k);
    }
  }

  /** A body decodes right when its first token and the others do. */
  lemma DecodeMore(c: Coding, rs: seq<Record>, bytes: seq<char>, b: Body, k: nat)
    requires b.More? && k + |Tokens(b)| <= |rs|
    ensures |Tokens(b)| == 1 + |Tokens(b.tail)|
    ensures Decode(rs, bytes, k, |Tokens(b)|) == Meaning(c, b) <==>
            && DecodeOne(rs, bytes, k) == MeaningOf(c, b.head)
            && Decode(rs, bytes, k + 1, |Tokens(b.tail)|) == Meaning(c, b.tail)
  {
    hide DecodeOne, MeaningOf;
    var d, e := Decode(rs, bytes, k, |Tokens(b)|), Meaning(c, b);
    assert d == [DecodeOne(rs, bytes, k)] + Decode(rs, bytes, k + 1, |Tokens(b.tail)|);
    assert e == [MeaningOf(c, b.head)] + Meaning(c, b.tail);
    assert d[0] == DecodeOne(rs, bytes, k) && e[0] == MeaningOf(c, b.head);
    assert d[1..] == Decode(rs, bytes, k + 1, |Tokens(b.tail)|) && e[1..] == Meaning(c, b.tail);
  }

  lemma OneDecodes(c: Coding, m: map<int, int>, rs: seq<Record>, bytes: seq<char>, t: Token, k: nat)
    requires k < |rs| && rs[k] == RecordOf(c, m, t)
    requires t.Block? ==>
               t.id in m && var s := m[t.id] / BINOBJ_SIZE;
               && s > k && s + |Tokens(t.body)| <= |rs|
               && (Decode(rs, bytes, s, |Tokens(t.body)|) == Meaning(c, t.body) <==>
                   TextsOk(c, m, bytes, BINOBJ_SIZE * |rs|, t.body))
    ensures DecodeOne(rs, bytes, k) == MeaningOf(c, t) <==> OneOk(c, m, bytes, BINOBJ_SIZE * |rs|, t)
  {
    hide Decode, Meaning, TextsOk, Tokens;
    if t.Text? && !IsLiteral(c, t) && !IsKnown(c, t) { assert Bytes(c, t) == []; }
  }

  // ----- the work list puts every body in its place -----

  lemma {:induction false} PushKeeps(ts: seq<Token>, stack: seq<Work>)
    ensures forall w | w in stack :: w in Push(ts, stack)
    ensures forall t | t in ts && t.Block? :: Work(t.id, t.body) in Push(ts, stack)
    decreases |ts|
  {
    if ts != [] {
      var s := if ts[0].Block? then [Work(ts[0].id, ts[0].body)] + stack else stack;
      PushKeeps(ts[1..], s);
      forall t | t in ts && t.Block? ensures Work(t.id, t.body) in Push(ts, stack) {
        if t == ts[0] { assert s[0] == Work(t.id, t.body); } else { assert t in ts[1..]; }
      }
      forall w | w in stack ensures w in Push(ts, stack) { assert w in s; }
    }
  }

  lemma LaterHas(stack: seq<Work>)
    requires stack != []
    ensures forall w | w in stack[1..] :: w in Later(stack)
    ensures forall t | t in Tokens(stack[0].body) && t.Block? :: Work(t.id, t.body) in Later(stack)
  {
    PushKeeps(Tokens(stack[0].body), stack[1..]);
  }

  lemma {:induction false} StartsHas(stack: seq<Work>, w: Work, base: nat)
    requires w in stack
    ensures w.owner in Starts(stack, base)
    decreases StackSize(stack)
  {
    OneBody(stack, base);
    LaterHas(stack);
    hide Starts, Later, Tokens, Order;
    if w != stack[0] {
      assert w in stack[1..];
      StartsHas(Later(stack), w, base + |Tokens(stack[0].body)|);
    }
  }

  lemma {:induction false} OwnerIn(stack: seq<Work>, w: Work)
    requires w in stack
    ensures w.owner in StackIds(stack)
    decreases |stack|
  {
    if w != stack[0] { OwnerIn(stack[1..], w); }
  }

  lemma {:induction false} StartsOwned(stack: seq<Work>, base: nat, id: int)
    requires id in Starts(stack, base)
    ensures id in StackIds(stack)
    decreases StackSize(stack)
  {
    if stack != [] && id != stack[0].owner {
      OneBody(stack, base);
      StartsOwned(Later(stack), base + |Tokens(stack[0].body)|, id);
      PoppedIds(stack);
    }
  }

  /** The fields after the first pass, as far as a work list goes. */
  ghost predicate Assigned(c: Coding, m: map<int, int>, rs: seq<Record>, stack: seq<Work>, base: nat) {
    && TokensOk(c, m, rs, Order(stack), base) && StartsOk(m, Starts(stack, base))
  }

  ghost predicate TokensOk(c: Coding, m: map<int, int>, rs: seq<Record>, ts: seq<Token>, k: nat) {
    && k + |ts| <= |rs|
    && forall i | 0 <= i < |ts| :: rs[k + i] == RecordOf(c, m, ts[i])
  }

  ghost predicate StartsOk(m: map<int, int>, starts: map<int, int>) {
    forall id | id in starts && id >= 0 :: id in m && m[id] == BINOBJ_SIZE * starts[id]
  }

  lemma TokensOkSplits(c: Coding, m: map<int, int>, rs: seq<Record>, a: seq<Token>, b: seq<Token>, k: nat)
    requires TokensOk(c, m, rs, a + b, k)
    ensures TokensOk(c, m, rs, a, k) && TokensOk(c, m, rs, b, k + |a|)
  {
    hide RecordOf;
    forall i | 0 <= i < |a| ensures rs[k + i] == RecordOf(c, m, a[i]) {
      assert (a + b)[i] == a[i];
    }
    forall i | 0 <= i < |b|
      ensures rs[k + |a| + i] == RecordOf(c, m, b[i])
    {
      assert (a + b)[|a| + i] == b[i];
      assert rs[k + (|a| + i)] == RecordOf(c, m, (a + b)[|a| + i]);
    }
  }

  ghost predicate WorkPlaced(c: Coding, m: map<int, int>, rs: seq<Record>, starts: map<int, int>, base: nat, w: Work) {
    w.owner in starts && starts[w.owner] >= base && Placed(c, m, rs, w.body, starts[w.owner])
  }

  lemma OwnerIsNew(stack: seq<Work>, base: nat)
    requires stack != [] && Distinct(StackIds(stack))
    ensures stack[0].owner !in Starts(Later(stack), base)
  {
    hide Starts, StackIds, Ids, Distinct;
    Popped(stack);
    hide Later;
    if stack[0].owner in Starts(Later(stack), base) { StartsOwned(Later(stack), base, stack[0].owner); }
  }

  lemma Widens(c: Coding, m: map<int, int>, rs: seq<Record>, small: map<int, int>, from: nat, owner: int, base: nat, w: Work)
    requires WorkPlaced(c, m, rs, small, from, w) && owner !in small && base <= from
    ensures WorkPlaced(c, m, rs, small[owner := base], base, w)
  {
  }

  lemma StartsOkSub(m: map<int, int>, small: map<int, int>, owner: int, base: nat)
    requires StartsOk(m, small[owner := base]) && owner !in small
    ensures StartsOk(m, small)
  {
    var big := small[owner := base];
    forall id | id in small && id >= 0 ensures id in m && m[id] == BINOBJ_SIZE * small[id] {
      assert id in big && big[id] == small[id];
    }
  }

  lemma {:induction false} WorkIsPlaced(c: Coding, m: map<int, int>, rs: seq<Record>, stack: seq<Work>, base: nat)
    requires Assigned(c, m, rs, stack, base) && Distinct(StackIds(stack))
    ensures forall w | w in stack :: WorkPlaced(c, m, rs, Starts(stack, base), base, w)
    decreases StackSize(stack)
  {
    hide StackIds, Ids, Distinct;
    if stack != [] {
      OneBody(stack, base);
      Popped(stack);
      OwnerIsNew(stack, base + |Tokens(stack[0].body)|);
      LaterHas(stack);
      AssignedLater(c, m, rs, stack, base);
      hide Order, Starts, Later, StackIds, Tokens, Assigned, Distinct, WorkPlaced;
      var n := |Tokens(stack[0].body)|;
      WorkIsPlaced(c, m, rs, Later(stack), base + n);
      TopIsPlaced(c, m, rs, stack, base);
      forall w | w in stack ensures WorkPlaced(c, m, rs, Starts(stack, base), base, w) {
        if w != stack[0] {
          assert w in stack[1..];
          Widens(c, m, rs, Starts(Later(stack), base + n), base + n, stack[0].owner, base, w);
        }
      }
    }
  }

  lemma AssignedLater(c: Coding, m: map<int, int>, rs: seq<Record>, stack: seq<Work>, base: nat)
    requires stack != [] && Assigned(c, m, rs, stack, base) && Distinct(StackIds(stack))
    ensures Assigned(c, m, rs, Later(stack), base + |Tokens(stack[0].body)|)
    ensures TokensOk(c, m, rs, Tokens(stack[0].body), base)
  {
    hide StackIds, Ids, Distinct, Starts, Tokens, TokensOk, StartsOk;
    OneBody(stack, base);
    TokensOkSplits(c, m, rs, Tokens(stack[0].body), Order(Later(stack)), base);
    StartsLater(m, stack, base);
  }

  lemma StartsLater(m: map<int, int>, stack: seq<Work>, base: nat)
    requires stack != [] && StartsOk(m, Starts(stack, base)) && Distinct(StackIds(stack))
    ensures StartsOk(m, Starts(Later(stack), base + |Tokens(stack[0].body)|))
  {
    hide StackIds, Ids, Distinct, Order, Tokens, StartsOk;
    OneBody(stack, base);
    OwnerIsNew(stack, base + |Tokens(stack[0].body)|);
    hide Starts, Later;
    StartsOkSub(m, Starts(Later(stack), base + |Tokens(stack[0].body)|), stack[0].owner, base);
  }

  /** The body that is worked off first. */
  lemma TopIsPlaced(c: Coding, m: map<int, int>, rs: seq<Record>, stack: seq<Work>, base: nat)
    requires stack != [] && Assigned(c, m, rs, stack, base) && Distinct(StackIds(stack))
    requires var n := |Tokens(stack[0].body)|;
             forall w | w in Later(stack) :: WorkPlaced(c, m, rs, Starts(Later(stack), base + n), base + n, w)
    ensures WorkPlaced(c, m, rs, Starts(stack, base), base, stack[0])
  {
    hide StackIds, Ids, Distinct;
    AssignedLater(c, m, rs, stack, base);
    OneBody(stack, base);
    LaterHas(stack);
    hide Order, Starts, Later, StackIds, Tokens, TokensOk, Distinct, Placed, Assigned;
    var ts := Tokens(stack[0].body);
    forall t | t in ts && t.Block? ensures BlockOk(c, m, rs, t, base + |ts|) {
      var w := Work(t.id, t.body);
      assert WorkPlaced(c, m, rs, Starts(Later(stack), base + |ts|), base + |ts|, w);
    }
    BodyIsPlaced(c, m, rs, stack[0].body, base, base + |ts|);
  }

  ghost predicate BlockOk(c: Coding, m: map<int, int>, rs: seq<Record>, t: Token, from: nat)
    requires t.Block?
  {
    && t.id in m && m[t.id] % BINOBJ_SIZE == 0 && m[t.id] / BINOBJ_SIZE >= from
    && Placed(c, m, rs, t.body, m[t.id] / BINOBJ_SIZE)
  }

  lemma {:induction false} BodyIsPlaced(c: Coding, m: map<int, int>, rs: seq<Record>, b: Body, k: nat, from: nat)
    requires k + |Tokens(b)| == from && TokensOk(c, m, rs, Tokens(b), k)
    requires forall t | t in Tokens(b) && t.Block? :: BlockOk(c, m, rs, t, from)
    ensures Placed(c, m, rs, b, k)
    decreases b
  {
    if b.More? {
      var ts, us := Tokens(b), Tokens(b.tail);
      assert ts[0] == b.head && ts == [b.head] + us;
      TokensOkSplits(c, m, rs, [b.head], us, k);
      BodyIsPlaced(c, m, rs, b.tail, k + 1, from);
      if b.head.Block? { assert BlockOk(c, m, rs, b.head, from); }
    }
  }
}
