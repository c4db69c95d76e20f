/** BuildTypesAndAssignAddresses() and ConstructStatics() as they work in place: the first sets
    fields of the tokens, the second reads them.  A field of all tokens is a map by token. */
module Pswrap {
  import opened ObjectLayout
  import opened ObjectDecoding
  import opened ObjectPasses

  /** The k-th token of `ts` is object k, at address 8k. */
  ghost predicate Numbered(adr: map<int, int>, tokenIndex: map<int, int>, ts: seq<Token>) {
    forall k | 0 <= k < |ts| ::
      && ts[k].id in tokenIndex && tokenIndex[ts[k].id] == k
      && ts[k].id in adr && adr[ts[k].id] == 8 * k
  }

  class Wrap {
    const c: Coding
    var adr: map<int, int>
    var tokenIndex: map<int, int>
    var body: map<int, int>

    constructor (c: Coding)
      ensures this.c == c && adr == map[] && tokenIndex == map[] && body == map[]
    {
      this.c := c;
      adr, tokenIndex, body := map[], map[], map[];
    }

    method Build(root: Body) returns (nObjs: nat, psize: nat, sz: int)
      requires Distinct(Ids(root)) && body == map[]
      modifies this
      ensures Numbered(adr, tokenIndex, Order(Root(root))) && body == BodyFields(c, root)
      ensures psize == BINOBJ_SIZE * |Order(Root(root))| && sz == psize + |Flat(Strings(c, root))|
      ensures nObjs == |Table(c, root)| + |Strings(c, root)|
    {
      hide Ids, Starts, Order, Literals, StackIds, Distinct, Scaled, Numbered, DistinctTokens, Tokens, Later, PlaceStrings, OutputStrings, Flat;
      RootDistinct(root);
      ghost var all, starts := Order(Root(root)), Starts(Root(root), 0);
      ghost var done: seq<Token> := [];
      var literals: seq<Literal> := [];
      var bodies := Root(root);
      var objN := 0;
      assert map[] + Scaled(starts) == Scaled(starts) && all == done + all;
      StartsNothing();
      while bodies != []
        invariant Distinct(StackIds(bodies)) && objN == |done|
        invariant all == done + Order(bodies) && literals == Literals(c, done) && Numbered(adr, tokenIndex, done)
        invariant body + Scaled(Starts(bodies, objN)) == Scaled(starts)
        decreases StackSize(bodies)
      {
        OneBody(bodies, objN);
        LaterIs(bodies);
        Popped(bodies);
        OwnerIsNew(bodies, objN + |Tokens(bodies[0].body)|);
        var top := bodies[0];
        ghost var later := Later(bodies);
        ScaledStep(body, Starts(later, objN + |Tokens(top.body)|), top.owner, objN);
        if top.owner >= 0 { body := body[top.owner := BINOBJ_SIZE * objN]; }
        literals, bodies, objN := OneWork(top.body, bodies[1..], literals, objN, done, all);
        done := done + Tokens(top.body);
        assert all == done + Order(bodies);
      }
      NoWork(done, all);
      ScaledNone(body, objN);
      psize := BINOBJ_SIZE * objN;
      LiteralsAre(c, all);
      nObjs, sz := PutStrings(literals, psize, objN);
    }

    lemma StartsNothing()
      ensures Numbered(adr, tokenIndex, []) && Literals(c, []) == []
    {
    }

    /** The tokens of one body. */
    method OneWork(b: Body, rest: seq<Work>, literals0: seq<Literal>, objN0: nat, ghost done: seq<Token>, ghost all: seq<Token>)
      returns (literals: seq<Literal>, bodies: seq<Work>, objN: nat)
      requires objN0 == |done| && literals0 == Literals(c, done)
      requires DistinctTokens(all) && done + Tokens(b) <= all && Numbered(adr, tokenIndex, done)
      modifies this`adr, this`tokenIndex
      ensures objN == |done + Tokens(b)| && Numbered(adr, tokenIndex, done + Tokens(b))
      ensures literals == Literals(c, done + Tokens(b)) && bodies == Push(Tokens(b), rest)
    {
      hide Literals, DistinctTokens, Numbered, Bytes, Tokens, Push;
      literals, bodies, objN := literals0, rest, objN0;
      ghost var now := done;
      var t := b;
      while t.More?
        invariant now + Tokens(t) == done + Tokens(b) && objN == |now| && Numbered(adr, tokenIndex, now)
        invariant literals == Literals(c, now) && Push(Tokens(b), rest) == Push(Tokens(t), bodies)
        decreases t
      {
        var tok := t.head;
        NextToken(now, t, bodies);
        NewToken(all, now, tok, Tokens(t.tail));
        LiteralsSnoc(c, now, tok);
        NumberedSnoc(adr, tokenIndex, now, tok);
        adr := adr[tok.id := BINOBJ_SIZE * objN];
        tokenIndex := tokenIndex[tok.id := objN];
        objN := objN + 1;
        if tok.Text? && IsLiteral(c, tok) { literals := [LiteralOf(c, tok)] + literals; }
        if tok.Block? { bodies := [Work(tok.id, tok.body)] + bodies; }
        now := now + [tok];
        t := t.tail;
      }
      LastToken(now, t, bodies);
      assert now == done + Tokens(b);
    }

    /** The strings, behind the objects. */
    method PutStrings(literals: seq<Literal>, psize: nat, objN0: nat) returns (objN: nat, nextAdr: int)
      requires DistinctIds(literals)
      modifies this`body
      ensures body == old(body) + PlaceStrings(literals, map[], psize).0
      ensures nextAdr == psize + |Flat(OutputStrings(literals, map[]))|
      ensures objN == objN0 + |OutputStrings(literals, map[])|
    {
      hide PlaceStrings, OutputStrings, Flat, DistinctIds, Putting, Entered;
      var dict: map<string, int> := map[];
      ghost var seen: map<string, int> := map[];
      var i := 0;
      objN, nextAdr := objN0, psize;
      ghost var goal := body + PlaceStrings(literals, map[], psize).0;
      ghost var out := OutputStrings(literals, map[]);
      PutNone(literals, body, psize, objN0);
      while i < |literals|
        invariant 0 <= i <= |literals|
        invariant Putting(literals[i..], body, dict, seen, nextAdr, objN, goal, psize + |Flat(out)|, objN0 + |out|)
      {
        var t := literals[i];
        ghost var rest := literals[i..];
        assert rest[0] == t && rest[1..] == literals[i + 1..];
        RestIds(literals, i);
        PutOne(rest, body, dict, seen, nextAdr, objN, goal, psize + |Flat(out)|, objN0 + |out|);
        if t.text !in dict {
          body := body[t.id := nextAdr];
          dict := Entered(dict, t.text, nextAdr);
          seen := Entered(seen, t.text, 0);
          nextAdr := nextAdr + |t.bytes|;
          objN := objN + 1;
        } else {
          body := body[t.id := dict[t.text]];
        }
        i := i + 1;
      }
      assert literals[i..] == [];
      PutAll(body, dict, seen, nextAdr, objN, goal, psize + |Flat(out)|, objN0 + |out|);
    }

    method Construct(root: Body, nObjs: nat) returns (objects: seq<Record>, strings: seq<seq<char>>)
      requires body == BodyFields(c, root) && nObjs == |Table(c, root)| + |Strings(c, root)|
      ensures objects == Table(c, root) && strings == Strings(c, root)
      ensures |objects| + |strings| == nObjs
    {
      hide Order, Literals, Emitted, OutputStrings, BodyFields, Tokens, Later;
      ghost var all := Order(Root(root));
      ghost var done: seq<Token> := [];
      ghost var works := Root(root);
      var literals: seq<Literal> := [];
      var bodies := [root];
      objects := [];
      NothingYet(objects);
      assert Bodies(works) == bodies && all == done + all;
      while bodies != []
        invariant bodies == Bodies(works) && all == done + Order(works)
        invariant literals == Literals(c, done) && Emitted(objects, done)
        decreases StackSize(works)
      {
        OneBody(works, 0);
        ghost var later := Later(works);
        LaterIs(works);
        objects, literals, bodies := EmitBody(bodies[0], works[1..], bodies[1..], objects, literals, done);
        done := done + Tokens(works[0].body);
        works := later;
        assert all == done + Order(works);
      }
      NoneLeft(works, done, all);
      strings := PutChars(literals);
      TableIs(root, objects);
    }

    lemma NothingYet(objects: seq<Record>)
      requires objects == []
      ensures Emitted(objects, []) && Literals(c, []) == []
    {
    }

    lemma TableIs(root: Body, objects: seq<Record>)
      requires body == BodyFields(c, root) && Emitted(objects, Order(Root(root)))
      ensures objects == Table(c, root)
    {
      hide Order, BodyFields, RecordOf;
    }

    /** The objects of one body. */
    method EmitBody(b: Body, ghost rest: seq<Work>, bodies0: seq<Body>, objects0: seq<Record>, literals0: seq<Literal>, ghost done: seq<Token>)
      returns (objects: seq<Record>, literals: seq<Literal>, bodies: seq<Body>)
      requires bodies0 == Bodies(rest) && Emitted(objects0, done) && literals0 == Literals(c, done)
      ensures Emitted(objects, done + Tokens(b)) && literals == Literals(c, done + Tokens(b))
      ensures bodies == Bodies(Push(Tokens(b), rest))
    {
      hide Literals, Bytes, RecordOf;
      objects, literals, bodies := objects0, literals0, bodies0;
      ghost var now, pushed := done, rest;
      var t := b;
      while t.More?
        invariant now + Tokens(t) == done + Tokens(b) && bodies == Bodies(pushed)
        invariant Push(Tokens(t), pushed) == Push(Tokens(b), rest)
        invariant literals == Literals(c, now) && Emitted(objects, now)
        decreases t
      {
        var tok := t.head;
        assert now + Tokens(t) == (now + [tok]) + Tokens(t.tail);
        LiteralsSnoc(c, now, tok);
        objects := objects + [RecordOf(c, body, tok)];
        if tok.Text? && IsLiteral(c, tok) { literals := [LiteralOf(c, tok)] + literals; }
        PushOne(tok, Tokens(t.tail), pushed);
        if tok.Block? {
          BodiesPush(Work(tok.id, tok.body), pushed);
          bodies := [tok.body] + bodies;
          pushed := [Work(tok.id, tok.body)] + pushed;
        }
        now := now + [tok];
        t := t.tail;
      }
      assert now == done + Tokens(b);
    }

    ghost predicate Emitted(objects: seq<Record>, ts: seq<Token>)
      reads this
    {
      |objects| == |ts| && forall k | 0 <= k < |ts| :: objects[k] == RecordOf(c, body, ts[k])
    }
  }

  /** Both passes over a wrap: the table decodes to the tree exactly when every literal reads right. */
  method LayOut(c: Coding, root: Body) returns (objects: seq<Record>, strings: seq<seq<char>>)
    requires Distinct(Ids(root))
    ensures |Tokens(root)| <= |objects|
    ensures Decode(objects, Flat(strings), 0, |Tokens(root)|) == Meaning(c, root) <==> LiteralsRead(c, root)
    ensures NoClash(Literals(c, Order(Root(root)))) ==> LiteralsRead(c, root)
  {
    hide Distinct, Ids, NoClash, Literals, LiteralsRead, Order, BodyFields, Table, Strings, Decode, Meaning;
    TableDecodesIff(c, root);
    if NoClash(Literals(c, Order(Root(root)))) { TableDecodes(c, root); }
    var w := new Wrap(c);
    var nObjs, psize, sz := w.Build(root);
    objects, strings := w.Construct(root, nObjs);
  }

  method PutChars(literals: seq<Literal>) returns (strings: seq<seq<char>>)
    ensures strings == OutputStrings(literals, map[])
  {
    var dict: map<string, int> := map[];
    var i := 0;
    strings := [];
    assert literals[0..] == literals;
    while i < |literals|
      invariant 0 <= i <= |literals|
      invariant strings + OutputStrings(literals[i..], dict) == OutputStrings(literals, map[])
    {
      var t := literals[i];
      assert literals[i..][1..] == literals[i + 1..];
      if t.text !in dict {
        strings := strings + [t.bytes];
        dict := Entered(dict, t.text, 0);
      }
      i := i + 1;
    }
  }

  // ----- steps of the loops -----

  function Bodies(stack: seq<Work>): seq<Body> {
    if stack == [] then [] else [stack[0].body] + Bodies(stack[1..])
  }

  lemma LaterIs(stack: seq<Work>)
    requires stack != []
    ensures Later(stack) == Push(Tokens(stack[0].body), stack[1..])
  {
  }

  lemma NoneLeft(stack: seq<Work>, done: seq<Token>, all: seq<Token>)
    requires Bodies(stack) == [] && all == done + Order(stack)
    ensures done == all
  {
  }

  lemma BodiesPush(w: Work, stack: seq<Work>)
    ensures Bodies([w] + stack) == [w.body] + Bodies(stack)
  {
    assert ([w] + stack)[1..] == stack;
  }

  lemma PushOne(t: Token, ts: seq<Token>, stack: seq<Work>)
    ensures Push([t] + ts, stack) == Push(ts, if t.Block? then [Work(t.id, t.body)] + stack else stack)
  {
    assert ([t] + ts)[1..] == ts;
  }

  lemma NextToken(now: seq<Token>, t: Body, stack: seq<Work>)
    requires t.More?
    ensures now + Tokens(t) == (now + [t.head]) + Tokens(t.tail) == now + ([t.head] + Tokens(t.tail))
    ensures Push(Tokens(t), stack) ==
            Push(Tokens(t.tail), if t.head.Block? then [Work(t.head.id, t.head.body)] + stack else stack)
  {
    PushOne(t.head, Tokens(t.tail), stack);
  }

  lemma LastToken(now: seq<Token>, t: Body, stack: seq<Work>)
    requires t.Stop?
    ensures now + Tokens(t) == now && Push(Tokens(t), stack) == stack
  {
  }

  lemma {:induction false} LiteralsSnoc(c: Coding, ts: seq<Token>, t: Token)
    ensures Literals(c, ts + [t]) == (if IsLiteral(c, t) then [LiteralOf(c, t)] else []) + Literals(c, ts)
    decreases |ts|
  {
    if ts == [] { assert [] + [t] == [t] && [t][1..] == []; }
    else {
      assert (ts + [t])[1..] == ts[1..] + [t];
      LiteralsSnoc(c, ts[1..], t);
    }
  }

  lemma NumberedSnoc(adr: map<int, int>, tokenIndex: map<int, int>, ts: seq<Token>, t: Token)
    requires Numbered(adr, tokenIndex, ts) && forall k | 0 <= k < |ts| :: ts[k].id != t.id
    ensures Numbered(adr[t.id := BINOBJ_SIZE * |ts|], tokenIndex[t.id := |ts|], ts + [t])
  {
  }

  lemma NewToken(all: seq<Token>, now: seq<Token>, t: Token, rest: seq<Token>)
    requires DistinctTokens(all) && now + ([t] + rest) <= all
    ensures forall k | 0 <= k < |now| :: now[k].id != t.id
  {
    assert all[|now|] == t;
    forall k | 0 <= k < |now| ensures now[k].id != t.id { assert all[k] == now[k]; }
  }

  /** A body's address is set when it is taken off the list. */
  lemma ScaledStep(m: map<int, int>, later: map<int, int>, owner: int, at: nat)
    requires owner !in later
    ensures var m' := if owner >= 0 then m[owner := BINOBJ_SIZE * at] else m;
            m' + Scaled(later) == m + Scaled(later[owner := at])
  {
  }

  lemma NoWork(done: seq<Token>, all: seq<Token>)
    requires all == done + Order([])
    ensures done == all
  {
  }

  lemma ScaledNone(m: map<int, int>, at: nat)
    ensures m + Scaled(Starts([], at)) == m
  {
  }

  lemma RestIds(ls: seq<Literal>, i: nat)
    requires DistinctIds(ls) && i < |ls|
    ensures DistinctIds(ls[i..])
  {
    forall j, k | 0 <= j < k < |ls[i..]| ensures ls[i..][j].id != ls[i..][k].id { assert ls[i + j].id != ls[i + k].id; }
  }

  /** What is still to be put makes of the fields, the next address and the number of objects what
      they are in the end. */
  ghost predicate Putting(ls: seq<Literal>, m: map<int, int>, dict: map<string, int>, seen: map<string, int>, next: int, objN: int,
                          goal: map<int, int>, end: int, total: int)
  {
    && dict.Keys == seen.Keys && goal == m + PlaceStrings(ls, dict, next).0
    && objN + |OutputStrings(ls, seen)| == total && next + |Flat(OutputStrings(ls, seen))| == end
  }

  lemma PutNone(ls: seq<Literal>, m: map<int, int>, next: int, objN: int)
    ensures var out := OutputStrings(ls, map[]);
            Putting(ls[0..], m, map[], map[], next, objN, m + PlaceStrings(ls, map[], next).0, next + |Flat(out)|, objN + |out|)
  {
    assert ls[0..] == ls;
  }

  lemma PutAll(m: map<int, int>, dict: map<string, int>, seen: map<string, int>, next: int, objN: int, goal: map<int, int>, end: int, total: int)
    requires Putting([], m, dict, seen, next, objN, goal, end, total)
    ensures m == goal && next == end && objN == total
  {
    NoStrings(dict, seen, next);
    assert m + map[] == m;
  }

  lemma PutOne(ls: seq<Literal>, m: map<int, int>, dict: map<string, int>, seen: map<string, int>, next: int, objN: int,
               goal: map<int, int>, end: int, total: int)
    requires ls != [] && DistinctIds(ls) && Putting(ls, m, dict, seen, next, objN, goal, end, total)
    ensures var t := ls[0];
            if t.text in dict then Putting(ls[1..], m[t.id := dict[t.text]], dict, seen, next, objN, goal, end, total)
            else Putting(ls[1..], m[t.id := next], Entered(dict, t.text, next), Entered(seen, t.text, 0),
                         next + |t.bytes|, objN + 1, goal, end, total)
  {
    SameSize(dict, seen);
    PlaceOne(ls, dict, next, m);
    OutputOne(ls, seen);
    hide PlaceStrings, OutputStrings, Flat, DistinctIds;
  }

  lemma NoStrings(dict: map<string, int>, seen: map<string, int>, next: int)
    ensures PlaceStrings([], dict, next) == (map[], next) && OutputStrings([], seen) == [] && Flat([]) == []
  {
  }

  lemma OutputOne(ls: seq<Literal>, dict: map<string, int>)
    requires ls != []
    ensures var t := ls[0];
            var more := OutputStrings(ls[1..], if t.text in dict then dict else Entered(dict, t.text, 0));
            if t.text in dict then OutputStrings(ls, dict) == more
            else |OutputStrings(ls, dict)| == 1 + |more| && |Flat(OutputStrings(ls, dict))| == |t.bytes| + |Flat(more)|
  {
    if ls[0].text !in dict { FlatCons([], ls[0].bytes, OutputStrings(ls[1..], Entered(dict, ls[0].text, 0))); }
  }

  lemma IdIsNew(ls: seq<Literal>, dict: map<string, int>, next: int)
    requires ls != [] && DistinctIds(ls)
    ensures ls[0].id !in PlaceStrings(ls[1..], dict, next).0
  {
    PlacedIds(ls[1..], dict, next);
    hide PlaceStrings;
    forall l | l in ls[1..] ensures l.id != ls[0].id {
      var k :| 0 <= k < |ls[1..]| && ls[1..][k] == l;
      assert ls[0].id != ls[k + 1].id;
    }
  }

  lemma PlaceOne(ls: seq<Literal>, dict: map<string, int>, next: int, m: map<int, int>)
    requires ls != [] && DistinctIds(ls)
    ensures var t := ls[0];
            var seen := t.text in dict;
            m + PlaceStrings(ls, dict, next).0 ==
            m[t.id := if seen then dict[t.text] else next] +
            PlaceStrings(ls[1..], if seen then dict else Entered(dict, t.text, next), if seen then next else next + |t.bytes|).0
  {
    hide DistinctIds;
    var t := ls[0];
    if t.text in dict {
      IdIsNew(ls, dict, next);
      Overlay(m, PlaceStrings(ls[1..], dict, next).0, t.id, dict[t.text]);
    } else {
      var e, n := Entered(dict, t.text, next), next + |t.bytes|;
      IdIsNew(ls, e, n);
      Overlay(m, PlaceStrings(ls[1..], e, n).0, t.id, next);
    }
  }

  lemma Overlay(m: map<int, int>, r: map<int, int>, id: int, v: int)
    requires id !in r
    ensures m + r[id := v] == m[id := v] + r
  {
  }
}
