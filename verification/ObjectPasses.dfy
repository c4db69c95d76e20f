/** The two passes of pswrap over a wrap: the first assigns addresses, the second puts out the
    table.  Each has its own work list. */
module ObjectPasses {
  import opened ObjectLayout
  import opened ObjectDecoding

  function Root(body: Body): seq<Work> {
    [Work(-1, body)]
  }

  /** The addresses of the arrays. */
  ghost function Scaled(starts: map<int, int>): map<int, int> {
    map id | id in starts && id >= 0 :: BINOBJ_SIZE * starts[id]
  }

  /** What the first pass leaves in the tokens' `body` fields. */
  ghost function BodyFields(c: Coding, root: Body): map<int, int> {
    var ts := Order(Root(root));
    Scaled(Starts(Root(root), 0)) + PlaceStrings(Literals(c, ts), map[], BINOBJ_SIZE * |ts|).0
  }

  ghost function Table(c: Coding, root: Body): seq<Record> {
    var ts := Order(Root(root));
    seq(|ts|, i requires 0 <= i < |ts| => RecordOf(c, BodyFields(c, root), ts[i]))
  }

  ghost function Strings(c: Coding, root: Body): seq<seq<char>> {
    OutputStrings(Literals(c, Order(Root(root))), map[])
  }

  // ----- tokens and their ids -----

  predicate DistinctTokens(ts: seq<Token>) {
    forall i, j | 0 <= i < j < |ts| :: ts[i].id != ts[j].id
  }

  lemma {:induction false} OwnIdsHas(ts: seq<Token>, i: nat)
    requires i < |ts|
    ensures ts[i].id in OwnIds(ts)
    decreases |ts|
  {
    if i > 0 { OwnIdsHas(ts[1..], i - 1); }
  }

  lemma {:induction false} OwnIdsDistinct(ts: seq<Token>)
    requires Distinct(OwnIds(ts))
    ensures DistinctTokens(ts)
    decreases |ts|
  {
    if ts != [] {
      var rest := ts[1..];
      forall i ensures OwnIds(rest)[i] <= 1 { assert OwnIds(ts)[i] <= 1; }
      OwnIdsDistinct(rest);
      forall i, j | 0 <= i < j < |ts| ensures ts[i].id != ts[j].id {
        if i == 0 { OwnIdsHas(rest, j - 1); assert OwnIds(ts)[ts[0].id] <= 1; } else { assert rest[i - 1].id != rest[j - 1].id; }
      }
    }
  }

  lemma {:induction false} OwnIdsJoin(a: seq<Token>, b: seq<Token>)
    ensures OwnIds(a + b) == OwnIds(a) + OwnIds(b)
    decreases |a|
  {
    if a == [] { assert a + b == b; }
    else {
      assert (a + b)[1..] == a[1..] + b;
      OwnIdsJoin(a[1..], b);
    }
  }

  /** Bodies on the list, and what their tokens hold. */
  function Owners(stack: seq<Work>): multiset<int> {
    if stack == [] then multiset{} else multiset{stack[0].owner} + Owners(stack[1..])
  }

  function Under(stack: seq<Work>): multiset<int> {
    if stack == [] then multiset{} else Ids(stack[0].body) + Under(stack[1..])
  }

  lemma {:induction false} PushUnder(ts: seq<Token>, stack: seq<Work>)
    ensures Under(Push(ts, stack)) == InnerIds(ts) + Under(stack)
    decreases |ts|
  {
    if ts != [] {
      var s := if ts[0].Block? then [Work(ts[0].id, ts[0].body)] + stack else stack;
      assert ts[0].Block? ==> s[1..] == stack;
      PushUnder(ts[1..], s);
    }
  }

  /** The tokens in order are all tokens. */
  lemma {:induction false} OrderIds(stack: seq<Work>)
    ensures OwnIds(Order(stack)) == Under(stack)
    decreases StackSize(stack)
  {
    if stack != [] {
      var ts := Tokens(stack[0].body);
      OneBody(stack, 0);
      OrderIds(Later(stack));
      OwnIdsJoin(ts, Order(Later(stack)));
      PushUnder(ts, stack[1..]);
      BodyIds(stack[0].body);
    }
  }

  lemma RootDistinct(root: Body)
    requires Distinct(Ids(root))
    ensures DistinctTokens(Order(Root(root))) && Distinct(StackIds(Root(root)))
  {
    OrderIds(Root(root));
    assert Under(Root(root)) == Ids(root);
    OwnIdsDistinct(Order(Root(root)));
    NoMinus(root);
    assert StackIds(Root(root)) == multiset{-1} + Ids(root);
  }

  lemma {:induction false} NoMinus(b: Body)
    ensures -1 !in Ids(b)
    decreases b
  {
    if b.More? {
      NoMinus(b.tail);
      if b.head.Block? { NoMinus(b.head.body); }
    }
  }

  // ----- literals -----

  lemma {:induction false} LiteralsAre(c: Coding, ts: seq<Token>)
    requires DistinctTokens(ts)
    ensures DistinctIds(Literals(c, ts))
    ensures forall l | l in Literals(c, ts) :: exists t :: t in ts && t.Text? && IsLiteral(c, t) && l == LiteralOf(c, t)
    ensures forall t | t in ts && IsLiteral(c, t) :: LiteralOf(c, t) in Literals(c, ts)
    decreases |ts|
  {
    if ts != [] {
      var rest := ts[1..];
      forall i, j | 0 <= i < j < |rest| ensures rest[i].id != rest[j].id { assert ts[i + 1].id != ts[j + 1].id; }
      LiteralsAre(c, rest);
      var ls := Literals(c, rest);
      forall l | l in ls ensures l.id != ts[0].id {
        var t :| t in rest && t.Text? && IsLiteral(c, t) && l == LiteralOf(c, t);
        var k :| 0 <= k < |rest| && rest[k] == t;
        assert ts[0].id != ts[k + 1].id;
      }
    }
  }

  lemma {:induction false} PlacedIds(ls: seq<Literal>, dict: map<string, int>, next: int)
    ensures forall id | id in PlaceStrings(ls, dict, next).0 :: exists l :: l in ls && l.id == id
    decreases |ls|
  {
    if ls != [] {
      var t := ls[0];
      var d, n := if t.text in dict then dict else Entered(dict, t.text, next), if t.text in dict then next else next + |t.bytes|;
      PlacedIds(ls[1..], d, n);
      var r := PlaceStrings(ls, dict, next).0;
      forall id | id in r ensures exists l :: l in ls && l.id == id {
        if id == t.id { assert ls[0] in ls; }
        else {
          assert id in PlaceStrings(ls[1..], d, n).0;
          var l :| l in ls[1..] && l.id == id;
          assert l in ls;
        }
      }
    }
  }

  /** Each body but the whole wrap's belongs to an array among the tokens. */
  lemma {:induction false} StartsAreBlocks(stack: seq<Work>, base: nat, id: int)
    requires id in Starts(stack, base)
    ensures (exists w :: w in stack && w.owner == id) || exists t :: t in Order(stack) && t.Block? && t.id == id
    decreases StackSize(stack)
  {
    OneBody(stack, base);
    var ts := Tokens(stack[0].body);
    if id != stack[0].owner {
      StartsAreBlocks(Later(stack), base + |ts|, id);
      if w :| w in Later(stack) && w.owner == id {
        PushFrom(ts, stack[1..], w);
        if w in stack[1..] { assert w in stack; }
        else {
          var t :| t in ts && t.Block? && w == Work(t.id, t.body);
          assert t in Order(stack);
        }
      } else {
        var t :| t in Order(Later(stack)) && t.Block? && t.id == id;
        assert t in Order(stack);
      }
    }
  }

  lemma {:induction false} PushFrom(ts: seq<Token>, stack: seq<Work>, w: Work)
    requires w in Push(ts, stack)
    ensures w in stack || exists t :: t in ts && t.Block? && w == Work(t.id, t.body)
    decreases |ts|
  {
    if ts != [] {
      var s := if ts[0].Block? then [Work(ts[0].id, ts[0].body)] + stack else stack;
      PushFrom(ts[1..], s, w);
      if w in s {
        if w !in stack { assert ts[0] in ts; }
      } else {
        var t :| t in ts[1..] && t.Block? && w == Work(t.id, t.body);
        assert t in ts;
      }
    }
  }

  // ----- the round trip -----

  lemma FieldsOfBlocks(c: Coding, root: Body)
    requires Distinct(Ids(root))
    ensures StartsOk(BodyFields(c, root), Starts(Root(root), 0))
  {
    var ts, starts, m := Order(Root(root)), Starts(Root(root), 0), BodyFields(c, root);
    RootDistinct(root);
    LiteralsAre(c, ts);
    var ls := Literals(c, ts);
    PlacedIds(ls, map[], BINOBJ_SIZE * |ts|);
    hide Starts, Order, PlaceStrings, Literals, Distinct, Ids;
    forall id | id in starts && id >= 0 ensures id in m && m[id] == BINOBJ_SIZE * starts[id] {
      StartsAreBlocks(Root(root), 0, id);
      if id in PlaceStrings(ls, map[], BINOBJ_SIZE * |ts|).0 {
        var l :| l in ls && l.id == id;
        var t :| t in ts && t.Text? && IsLiteral(c, t) && l == LiteralOf(c, t);
        var u :| u in ts && u.Block? && u.id == id;
        SameIdSameToken(ts, t, u);
        assert false;
      }
    }
  }

  lemma SameIdSameToken(ts: seq<Token>, t: Token, u: Token)
    requires DistinctTokens(ts) && t in ts && u in ts && t.id == u.id
    ensures t == u
  {
    var i :| 0 <= i < |ts| && ts[i] == t;
    var j :| 0 <= j < |ts| && ts[j] == u;
  }

  lemma TextsLie(c: Coding, ts: seq<Token>, size: nat, t: Token)
    requires DistinctTokens(ts) && NoClash(Literals(c, ts)) && t in ts && IsLiteral(c, t)
    ensures var ls := Literals(c, ts);
            var m := PlaceStrings(ls, map[], size).0;
            t.id in m && LiesAt(Flat(OutputStrings(ls, map[])), m[t.id] - size, Bytes(c, t))
  {
    hide NoClash, DistinctIds, LiesAt, PlaceStrings, OutputStrings;
    LiteralsAre(c, ts);
    hide Literals, IsLiteral, DistinctTokens;
    LiteralLies(Literals(c, ts), size, LiteralOf(c, t));
  }

  lemma FieldsOfTexts(c: Coding, root: Body, t: Token)
    requires Distinct(Ids(root)) && NoClash(Literals(c, Order(Root(root)))) && t in Order(Root(root))
    ensures TextOk(c, BodyFields(c, root), Flat(Strings(c, root)), BINOBJ_SIZE * |Order(Root(root))|, t)
  {
    hide Starts, Order, PlaceStrings, OutputStrings, Literals, Distinct, Ids, LiesAt, Scaled, NoClash, Bytes, Slice;
    var ts := Order(Root(root));
    RootDistinct(root);
    if IsLiteral(c, t) {
      TextsLie(c, ts, BINOBJ_SIZE * |ts|, t);
      LiesThenSlice(Flat(Strings(c, root)), BodyFields(c, root)[t.id] - BINOBJ_SIZE * |ts|, Bytes(c, t));
    }
  }

  lemma LiesThenSlice(s: seq<char>, off: int, b: seq<char>)
    requires LiesAt(s, off, b)
    ensures Slice(s, off, |b|) == b
  {
  }

  /** All literals of the bodies on the list read right. */
  ghost predicate WorkOk(c: Coding, m: map<int, int>, bytes: seq<char>, size: nat, stack: seq<Work>) {
    forall w | w in stack :: TextsOk(c, m, bytes, size, w.body)
  }

  ghost predicate AllOk(c: Coding, m: map<int, int>, bytes: seq<char>, size: nat, ts: seq<Token>) {
    forall t | t in ts :: TextOk(c, m, bytes, size, t)
  }

  lemma WorkCons(c: Coding, m: map<int, int>, bytes: seq<char>, size: nat, w: Work, stack: seq<Work>)
    ensures WorkOk(c, m, bytes, size, [w] + stack) <==> TextsOk(c, m, bytes, size, w.body) && WorkOk(c, m, bytes, size, stack)
  {
    hide TextsOk;
    assert w in [w] + stack;
    assert forall v | v in stack :: v in [w] + stack;
  }

  /** A body's literals read right if its own tokens do and its arrays, which are put on the list. */
  lemma {:induction false} PushOk(c: Coding, m: map<int, int>, bytes: seq<char>, size: nat, b: Body, stack: seq<Work>)
    ensures AllOk(c, m, bytes, size, Tokens(b)) && WorkOk(c, m, bytes, size, Push(Tokens(b), stack)) <==>
            TextsOk(c, m, bytes, size, b) && WorkOk(c, m, bytes, size, stack)
    decreases b
  {
    if b.More? {
      var ts, us := Tokens(b), Tokens(b.tail);
      var more := if b.head.Block? then [Work(b.head.id, b.head.body)] + stack else stack;
      assert ts == [b.head] + us && ts[1..] == us;
      PushOk(c, m, bytes, size, b.tail, more);
      assert Push(ts, stack) == Push(us, more);
      assert TextsOk(c, m, bytes, size, b) <==> OneOk(c, m, bytes, size, b.head) && TextsOk(c, m, bytes, size, b.tail);
      hide TextsOk, Push, Tokens, WorkOk, TextOk;
      if b.head.Block? { WorkCons(c, m, bytes, size, more[0], stack); }
      AllCons(c, m, bytes, size, b.head, us);
    }
  }

  lemma AllCons(c: Coding, m: map<int, int>, bytes: seq<char>, size: nat, t: Token, ts: seq<Token>)
    ensures AllOk(c, m, bytes, size, [t] + ts) <==> TextOk(c, m, bytes, size, t) && AllOk(c, m, bytes, size, ts)
  {
    hide TextOk;
    assert t in [t] + ts;
    assert forall u | u in ts :: u in [t] + ts;
  }

  lemma AllJoin(c: Coding, m: map<int, int>, bytes: seq<char>, size: nat, ts: seq<Token>, us: seq<Token>)
    ensures AllOk(c, m, bytes, size, ts + us) <==> AllOk(c, m, bytes, size, ts) && AllOk(c, m, bytes, size, us)
  {
    hide TextOk;
    assert forall u | u in ts :: u in ts + us;
    assert forall u | u in us :: u in ts + us;
  }

  /** The literals in the tree are those among the tokens in order. */
  lemma {:induction false} OrderOk(c: Coding, m: map<int, int>, bytes: seq<char>, size: nat, stack: seq<Work>)
    ensures WorkOk(c, m, bytes, size, stack) <==> AllOk(c, m, bytes, size, Order(stack))
    decreases StackSize(stack)
  {
    if stack != [] {
      OneBody(stack, 0);
      assert stack == [stack[0]] + stack[1..];
      assert Later(stack) == Push(Tokens(stack[0].body), stack[1..]);
      hide Order, Later, Push, Tokens, WorkOk, AllOk, TextsOk;
      OrderOk(c, m, bytes, size, Later(stack));
      WorkCons(c, m, bytes, size, stack[0], stack[1..]);
      PushOk(c, m, bytes, size, stack[0].body, stack[1..]);
      AllJoin(c, m, bytes, size, Tokens(stack[0].body), Order(Later(stack)));
    }
  }

  /** At the address of every literal its own bytes are read. */
  ghost predicate LiteralsRead(c: Coding, root: Body) {
    var ts := Order(Root(root));
    forall t | t in ts && IsLiteral(c, t) :: TextOk(c, BodyFields(c, root), Flat(Strings(c, root)), BINOBJ_SIZE * |ts|, t)
  }

  lemma RootOk(c: Coding, root: Body)
    ensures TextsOk(c, BodyFields(c, root), Flat(Strings(c, root)), BINOBJ_SIZE * |Order(Root(root))|, root) <==>
            LiteralsRead(c, root)
  {
    hide Order, Strings, BodyFields, TextsOk, WorkOk, Flat;
    var m, bytes, size := BodyFields(c, root), Flat(Strings(c, root)), BINOBJ_SIZE * |Order(Root(root))|;
    OrderOk(c, m, bytes, size, Root(root));
    WorkCons(c, m, bytes, size, Work(-1, root), []);
    assert Root(root) == [Work(-1, root)] + [];
    assert WorkOk(c, m, bytes, size, []) by { NothingToRead(c, m, bytes, size); }
    AllAreLiterals(c, m, bytes, size, Order(Root(root)));
  }

  lemma NothingToRead(c: Coding, m: map<int, int>, bytes: seq<char>, size: nat)
    ensures WorkOk(c, m, bytes, size, [])
  {
  }

  lemma AllAreLiterals(c: Coding, m: map<int, int>, bytes: seq<char>, size: nat, ts: seq<Token>)
    ensures AllOk(c, m, bytes, size, ts) <==> forall t | t in ts && IsLiteral(c, t) :: TextOk(c, m, bytes, size, t)
  {
  }

  lemma RootIsPlaced(c: Coding, root: Body)
    requires Distinct(Ids(root))
    ensures Placed(c, BodyFields(c, root), Table(c, root), root, 0)
  {
    var ts, rs, m := Order(Root(root)), Table(c, root), BodyFields(c, root);
    FieldsOfBlocks(c, root);
    RootDistinct(root);
    assert Starts(Root(root), 0)[-1] == 0 by { OneBody(Root(root), 0); }
    hide Starts, Order, Distinct, Ids, BodyFields, Placed, RecordOf;
    assert TokensOk(c, m, rs, ts, 0);
    WorkIsPlaced(c, m, rs, Root(root), 0);
    assert Work(-1, root) in Root(root);
  }

  /** Following lengths and offsets through the table rebuilds the tree exactly when every literal's
      own bytes are read at the address that it was given. */
  lemma TableDecodesIff(c: Coding, root: Body)
    requires Distinct(Ids(root))
    ensures |Tokens(root)| <= |Table(c, root)|
    ensures Decode(Table(c, root), Flat(Strings(c, root)), 0, |Tokens(root)|) == Meaning(c, root) <==> LiteralsRead(c, root)
  {
    var rs, bytes, m := Table(c, root), Flat(Strings(c, root)), BodyFields(c, root);
    assert |rs| == |Order(Root(root))|;
    hide *;
    RootIsPlaced(c, root);
    PlacedDecodes(c, m, rs, bytes, root, 0);
    RootOk(c, root);
  }

  /** It is so when no hexadecimal string has the text of another literal but other bytes. */
  lemma TableDecodes(c: Coding, root: Body)
    requires Distinct(Ids(root)) && NoClash(Literals(c, Order(Root(root))))
    ensures |Tokens(root)| <= |Table(c, root)|
    ensures Decode(Table(c, root), Flat(Strings(c, root)), 0, |Tokens(root)|) == Meaning(c, root)
  {
    hide Distinct, Ids, NoClash, TextOk, BodyFields, Strings, Decode, Meaning, Table, Tokens, Order;
    forall t | t in Order(Root(root)) && IsLiteral(c, t)
      ensures TextOk(c, BodyFields(c, root), Flat(Strings(c, root)), BINOBJ_SIZE * |Order(Root(root))|, t)
    {
      FieldsOfTexts(c, root, t);
    }
    TableDecodesIff(c, root);
  }

  // ----- where it does not -----

  function Clash(): Body {
    More(Text(0, Plain, "41"), More(Text(1, Hex, "41"), Stop(0)))
  }

  lemma ClashOrder(c: Coding)
    requires c.chars("41") == "41" && c.hexChars("41") == "A"
    ensures Order(Root(Clash())) == [Text(0, Plain, "41"), Text(1, Hex, "41")]
    ensures Literals(c, Order(Root(Clash()))) == [Literal(1, "41", "A"), Literal(0, "41", "41")]
  {
    var a, b := Text(0, Plain, "41"), Text(1, Hex, "41");
    var ts := Tokens(Clash());
    assert ts == [a, b] && ts[1..] == [b] && [b][1..] == [];
    assert Push([], []) == [];
    assert Push([b], []) == Push([], []);
    assert Push(ts, []) == Push([b], []);
    OneBody(Root(Clash()), 0);
    assert Root(Clash())[1..] == [];
    assert Literals(c, [b]) == [LiteralOf(c, b)];
    assert Literals(c, ts) == [LiteralOf(c, b)] + [LiteralOf(c, a)];
  }

  lemma ClashStrings()
    ensures var ls := [Literal(1, "41", "A"), Literal(0, "41", "41")];
            var m := PlaceStrings(ls, map[], 16).0;
            0 in m && m[0] == 16 && OutputStrings(ls, map[]) == ["A"] && Flat(["A"]) == "A"
  {
    var l, k := Literal(1, "41", "A"), Literal(0, "41", "41");
    var ls := [l, k];
    assert ls[1..] == [k] && [k][1..] == [];
    assert PlaceStrings([k], Entered(map[], "41", 16), 17).0 == map[0 := 16];
    assert OutputStrings([k], Entered(map[], "41", 0)) == [];
    assert ["A"][1..] == [];
  }

  /** (41) and <41> in one wrap: the dictionary goes by the text between the delimiters, so the plain
      string is sent to the one byte of the hexadecimal one. */
  lemma ClashMisreads(c: Coding)
    requires c.chars("41") == "41" && c.hexChars("41") == "A"
    ensures !NoClash(Literals(c, Order(Root(Clash()))))
    ensures |Tokens(Clash())| == 2 <= |Table(c, Clash())|
    ensures Decode(Table(c, Clash()), Flat(Strings(c, Clash())), 0, 2) != Meaning(c, Clash())
  {
    var ls := [Literal(1, "41", "A"), Literal(0, "41", "41")];
    ClashOrder(c);
    assert ls[0] in ls && ls[1] in ls;
    ClashStrings();
    hide PlaceStrings, OutputStrings, Order, Literals, Flat, NoClash, Starts;
    assert !NoClash(ls) by { NoClashMeans(ls, ls[0], ls[1]); }
    ClashTable(c);
    ClashTokens();
    hide *;
    FirstIsEmpty(Table(c, Clash()));
    ClashMeans(c);
  }

  lemma ClashTokens()
    ensures |Tokens(Clash())| == 2
  {
  }

  lemma ClashMeans(c: Coding)
    requires c.chars("41") == "41"
    ensures Meaning(c, Clash()) != [] && Meaning(c, Clash())[0] == String("41")
  {
  }

  /** The first string is read from behind the only byte. */
  lemma FirstIsEmpty(rs: seq<Record>)
    requires |rs| == 2 && rs[0] == Str(2, 16)
    ensures var d := Decode(rs, Flat(["A"]), 0, 2); d != [] && d[0] == String(Slice(Flat(["A"]), 0, 2)) && d[0] != String("41")
  {
    OneByte();
    hide Flat;
  }

  lemma OneByte()
    ensures Flat(["A"]) == "A"
  {
    assert ["A"][1..] == [];
  }

  lemma ClashTable(c: Coding)
    requires c.chars("41") == "41" && c.hexChars("41") == "A"
    ensures |Table(c, Clash())| == 2 && Table(c, Clash())[0] == Str(2, 16) && Strings(c, Clash()) == ["A"]
  {
    ClashOrder(c);
    ClashStrings();
    hide PlaceStrings, OutputStrings, Order, Literals, Flat, Starts;
  }

  lemma NoClashMeans(ls: seq<Literal>, l: Literal, k: Literal)
    requires l in ls && k in ls && l.text == k.text && l.bytes != k.bytes
    ensures !NoClash(ls)
  {
  }
}
