/** pswrap's binary object sequences: a tree of tokens is laid out as one flat table of 8-byte
    objects, followed by the bytes of its strings; arrays and strings give a length and an offset. */
module ObjectLayout {

  datatype TextKind = Plain | Hex | LitName | ExecName

  /** A token; `id` tells it from every other token of the wrap. */
  datatype Token =
    | Scalar(id: nat, tag: string, val: int)
    | Text(id: nat, kind: TextKind, text: string)
    | Block(id: nat, exec: bool, body: Body)

  datatype Body = Stop(src: nat) | More(head: Token, tail: Body)

  /** The bytes that literals stand for, and the names that are well known. */
  datatype Coding = Coding(chars: string -> seq<char>, hexChars: string -> seq<char>, known: map<string, int>)

  const BINOBJ_SIZE := 8
  const MAXSTRINGS := 256

  function Bytes(c: Coding, t: Token): seq<char>
    requires t.Text?
  {
    if t.kind.Hex? then c.hexChars(t.text) else c.chars(t.text)
  }

  predicate IsKnown(c: Coding, t: Token)
    requires t.Text?
  {
    (t.kind.LitName? || t.kind.ExecName?) && t.text in c.known
  }

  /** Does the token put its characters behind the objects? */
  predicate IsLiteral(c: Coding, t: Token) {
    t.Text? && if t.kind.Plain? || t.kind.Hex? then Bytes(c, t) != [] else t.text !in c.known
  }

  function Tokens(b: Body): seq<Token> {
    match b case Stop(_) => [] case More(h, t) => [h] + Tokens(t)
  }

  method NumTokens(body: Body) returns (n: nat)
    ensures n == |Tokens(body)|
  {
    n := 0;
    var b := body;
    while b.More?
      invariant n + |Tokens(b)| == |Tokens(body)|
      decreases b
    {
      n := n + 1;
      b := b.tail;
    }
  }

  // ----- the order in which bodies are worked off -----

  /** A body that waits to be laid out, and the token that it belongs to; -1 for the whole wrap. */
  datatype Work = Work(owner: int, body: Body)

  /** Every array and procedure among the tokens is put on the work list, the last one on top. */
  function Push(ts: seq<Token>, stack: seq<Work>): seq<Work>
    decreases |ts|
  {
    if ts == [] then stack
    else Push(ts[1..], if ts[0].Block? then [Work(ts[0].id, ts[0].body)] + stack else stack)
  }

  function Size(b: Body): nat
    decreases b
  {
    match b
    case Stop(_) => 1
    case More(h, t) => 1 + Size(t) + if h.Block? then Size(h.body) else 0
  }

  function StackSize(stack: seq<Work>): nat {
    if stack == [] then 0 else Size(stack[0].body) + StackSize(stack[1..])
  }

  function InnerSize(ts: seq<Token>): nat {
    if ts == [] then 0 else (if ts[0].Block? then Size(ts[0].body) else 0) + InnerSize(ts[1..])
  }

  lemma {:induction false} PushSize(ts: seq<Token>, stack: seq<Work>)
    ensures StackSize(Push(ts, stack)) == InnerSize(ts) + StackSize(stack)
    decreases |ts|
  {
    if ts != [] {
      var s := if ts[0].Block? then [Work(ts[0].id, ts[0].body)] + stack else stack;
      assert ts[0].Block? ==> s[1..] == stack;
      PushSize(ts[1..], s);
    }
  }

  lemma {:induction false} BodySize(b: Body)
    ensures InnerSize(Tokens(b)) < Size(b)
    decreases b
  {
    if b.More? {
      BodySize(b.tail);
      assert Tokens(b)[1..] == Tokens(b.tail);
    }
  }

  lemma Shrinks(stack: seq<Work>)
    requires stack != []
    ensures StackSize(Push(Tokens(stack[0].body), stack[1..])) < StackSize(stack)
  {
    PushSize(Tokens(stack[0].body), stack[1..]);
    BodySize(stack[0].body);
  }

  /** The tokens in the order of their objects. */
  function Order(stack: seq<Work>): seq<Token>
    decreases StackSize(stack)
  {
    if stack == [] then []
    else
      Shrinks(stack);
      var ts := Tokens(stack[0].body);
      ts + Order(Push(ts, stack[1..]))
  }

  /** The place of the first object of each body. */
  function Starts(stack: seq<Work>, base: nat): map<int, int>
    decreases StackSize(stack)
  {
    if stack == [] then map[]
    else
      Shrinks(stack);
      var ts := Tokens(stack[0].body);
      Starts(Push(ts, stack[1..]), base + |ts|)[stack[0].owner := base]
  }

  // ----- no token is there twice -----

  function Ids(b: Body): multiset<int>
    decreases b
  {
    match b
    case Stop(_) => multiset{}
    case More(h, t) => multiset{h.id} + (if h.Block? then Ids(h.body) else multiset{}) + Ids(t)
  }

  function InnerIds(ts: seq<Token>): multiset<int> {
    if ts == [] then multiset{} else (if ts[0].Block? then Ids(ts[0].body) else multiset{}) + InnerIds(ts[1..])
  }

  function OwnIds(ts: seq<Token>): multiset<int> {
    if ts == [] then multiset{} else multiset{ts[0].id} + OwnIds(ts[1..])
  }

  /** The tokens below the bodies of a work list, and the owners of the bodies. */
  function StackIds(stack: seq<Work>): multiset<int> {
    if stack == [] then multiset{} else multiset{stack[0].owner} + Ids(stack[0].body) + StackIds(stack[1..])
  }

  function BlockIds(ts: seq<Token>): multiset<int> {
    if ts == [] then multiset{} else (if ts[0].Block? then multiset{ts[0].id} else multiset{}) + BlockIds(ts[1..])
  }

  lemma {:induction false} PushIds(ts: seq<Token>, stack: seq<Work>)
    ensures StackIds(Push(ts, stack)) == BlockIds(ts) + InnerIds(ts) + StackIds(stack)
    decreases |ts|
  {
    if ts != [] {
      var s := if ts[0].Block? then [Work(ts[0].id, ts[0].body)] + stack else stack;
      assert ts[0].Block? ==> s[1..] == stack;
      PushIds(ts[1..], s);
    }
  }

  lemma {:induction false} BodyIds(b: Body)
    ensures Ids(b) == OwnIds(Tokens(b)) + InnerIds(Tokens(b)) && BlockIds(Tokens(b)) <= OwnIds(Tokens(b))
    decreases b
  {
    if b.More? {
      BodyIds(b.tail);
      assert Tokens(b)[1..] == Tokens(b.tail);
    }
  }

  ghost predicate Distinct(m: multiset<int>) {
    forall i :: m[i] <= 1
  }

  /** What is on the list after a body has been taken off is part of what was. */
  lemma PoppedIds(stack: seq<Work>)
    requires stack != []
    ensures var ts := Tokens(stack[0].body);
            StackIds(Push(ts, stack[1..])) + multiset{stack[0].owner} <= StackIds(stack)
  {
    var ts := Tokens(stack[0].body);
    PushIds(ts, stack[1..]);
    BodyIds(stack[0].body);
  }

  /** What is left after a body has been taken off and its arrays have been put on. */
  function Later(stack: seq<Work>): seq<Work>
    requires stack != []
  {
    Push(Tokens(stack[0].body), stack[1..])
  }

  lemma Popped(stack: seq<Work>)
    requires stack != [] && Distinct(StackIds(stack))
    ensures Distinct(StackIds(Later(stack))) && stack[0].owner !in StackIds(Later(stack))
  {
    PoppedIds(stack);
    hide StackIds, Push, Tokens, Later;
    var a, b, o := StackIds(Later(stack)), StackIds(stack), stack[0].owner;
    forall i ensures a[i] <= 1 { assert (a + multiset{o})[i] <= b[i]; }
    assert (a + multiset{o})[o] <= b[o];
  }

  lemma OneBody(stack: seq<Work>, base: nat)
    requires stack != []
    ensures var n := |Tokens(stack[0].body)|;
            && Order(stack) == Tokens(stack[0].body) + Order(Later(stack))
            && Starts(stack, base) == Starts(Later(stack), base + n)[stack[0].owner := base]
            && StackSize(Later(stack)) < StackSize(stack)
  {
    Shrinks(stack);
  }

  // ----- strings -----

  /** A literal: its token, its text and its bytes. */
  datatype Literal = Literal(id: nat, text: string, bytes: seq<char>)

  function LiteralOf(c: Coding, t: Token): Literal
    requires t.Text?
  {
    Literal(t.id, t.text, Bytes(c, t))
  }

  /** The literals among the tokens, the last one first. */
  function Literals(c: Coding, ts: seq<Token>): seq<Literal> {
    if ts == [] then [] else Literals(c, ts[1..]) + if IsLiteral(c, ts[0]) then [LiteralOf(c, ts[0])] else []
  }

  /** The dictionary of the strings so far takes no more than MAXSTRINGS + 1 entries. */
  function Entered(dict: map<string, int>, text: string, adr: int): map<string, int> {
    if |dict| <= MAXSTRINGS then dict[text := adr] else dict
  }

  /** The addresses of the literals, and the next address. */
  function PlaceStrings(ts: seq<Literal>, dict: map<string, int>, next: int): (map<int, int>, int)
    decreases |ts|
  {
    if ts == [] then (map[], next)
    else
      var t := ts[0];
      if t.text in dict then
        var r := PlaceStrings(ts[1..], dict, next);
        (r.0[t.id := dict[t.text]], r.1)
      else
        var r := PlaceStrings(ts[1..], Entered(dict, t.text, next), next + |t.bytes|);
        (r.0[t.id := next], r.1)
  }

  /** The strings that the second pass puts out. */
  function OutputStrings(ts: seq<Literal>, dict: map<string, int>): seq<seq<char>>
    decreases |ts|
  {
    if ts == [] then []
    else if ts[0].text in dict then OutputStrings(ts[1..], dict)
    else [ts[0].bytes] + OutputStrings(ts[1..], Entered(dict, ts[0].text, 0))
  }

  function Flat(ss: seq<seq<char>>): seq<char> {
    if ss == [] then [] else ss[0] + Flat(ss[1..])
  }

  /** The bytes b lie in s at `off`. */
  predicate LiesAt(s: seq<char>, off: int, b: seq<char>) {
    0 <= off && off + |b| <= |s| && s[off..off + |b|] == b
  }

  lemma LiesOn(s: seq<char>, off: int, b: seq<char>, more: seq<char>)
    requires LiesAt(s, off, b)
    ensures LiesAt(s + more, off, b)
  {
    assert (s + more)[off..off + |b|] == s[off..off + |b|];
  }

  /** No hexadecimal string has the text of another literal but different bytes. */
  predicate NoClash(ts: seq<Literal>)
  {
    forall t, u | t in ts && u in ts && t.text == u.text :: t.bytes == u.bytes
  }

  predicate DistinctIds(ts: seq<Literal>) {
    forall i, j | 0 <= i < j < |ts| :: ts[i].id != ts[j].id
  }

  /** What the dictionary says of the texts that are still to come is right. */
  ghost predicate DictOk(ts: seq<Literal>, dict: map<string, int>, base: int, done: seq<char>)
  {
    forall t | t in ts && t.text in dict :: LiesAt(done, dict[t.text] - base, t.bytes)
  }

  lemma SameSize(d: map<string, int>, e: map<string, int>)
    requires d.Keys == e.Keys
    ensures |d| == |e|
  {
    assert |d.Keys| == |e.Keys|;
  }

  ghost predicate AllLie(ts: seq<Literal>, m: map<int, int>, base: int, s: seq<char>)
  {
    forall t | t in ts :: t.id in m && LiesAt(s, m[t.id] - base, t.bytes)
  }

  lemma OthersLie(ts: seq<Literal>, m: map<int, int>, adr: int, base: int, s: seq<char>)
    requires ts != [] && DistinctIds(ts)
    requires AllLie(ts[1..], m, base, s)
    requires LiesAt(s, adr - base, ts[0].bytes)
    ensures AllLie(ts, m[ts[0].id := adr], base, s)
  {
    hide LiesAt;
    var r := m[ts[0].id := adr];
    forall t | t in ts ensures t.id in r && LiesAt(s, r[t.id] - base, t.bytes) {
      var i :| 0 <= i < |ts| && ts[i] == t;
      if i > 0 { assert ts[1..][i - 1] == t; assert ts[0].id != ts[i].id; }
    }
  }

  lemma LiesLast(done: seq<char>, b: seq<char>)
    ensures LiesAt(done + b, |done|, b)
  {
  }

  lemma EntersRight(ts: seq<Literal>, dict: map<string, int>, base: int, done: seq<char>)
    requires ts != [] && NoClash(ts) && DictOk(ts, dict, base, done) && ts[0].text !in dict
    ensures DictOk(ts[1..], Entered(dict, ts[0].text, base + |done|), base, done + ts[0].bytes)
  {
    hide LiesAt;
    var b := ts[0].bytes;
    var e := Entered(dict, ts[0].text, base + |done|);
    LiesLast(done, b);
    forall t | t in ts[1..] && t.text in e ensures LiesAt(done + b, e[t.text] - base, t.bytes) {
      assert t in ts && ts[0] in ts;
      if t.text in dict { LiesOn(done, dict[t.text] - base, t.bytes, b); }
      else { assert t.bytes == b; }
    }
  }

  lemma RestOk(ts: seq<Literal>)
    requires ts != [] && NoClash(ts) && DistinctIds(ts)
    ensures forall t | t in ts[1..] :: t in ts
    ensures NoClash(ts[1..]) && DistinctIds(ts[1..])
  {
    forall i, j | 0 <= i < j < |ts[1..]| ensures ts[1..][i].id != ts[1..][j].id {
      assert ts[i + 1].id != ts[j + 1].id;
    }
  }

  lemma FlatCons(done: seq<char>, b: seq<char>, more: seq<seq<char>>)
    ensures done + Flat([b] + more) == (done + b) + Flat(more)
  {
    assert ([b] + more)[1..] == more;
  }

  /** The literals `ts`, which come behind the bytes `done`, lie where the first pass puts them. */
  ghost predicate Agree(ts: seq<Literal>, dict: map<string, int>, dict': map<string, int>, base: int, done: seq<char>)
  {
    var p := PlaceStrings(ts, dict, base + |done|);
    var s := done + Flat(OutputStrings(ts, dict'));
    p.1 == base + |s| && AllLie(ts, p.0, base, s)
  }

  lemma PlaceNew(ts: seq<Literal>, dict: map<string, int>, next: int)
    requires ts != [] && ts[0].text !in dict
    ensures var r := PlaceStrings(ts[1..], Entered(dict, ts[0].text, next), next + |ts[0].bytes|);
            PlaceStrings(ts, dict, next) == (r.0[ts[0].id := next], r.1)
  {
  }

  lemma OutputNew(ts: seq<Literal>, dict: map<string, int>, done: seq<char>)
    requires ts != [] && ts[0].text !in dict
    ensures done + Flat(OutputStrings(ts, dict)) ==
            (done + ts[0].bytes) + Flat(OutputStrings(ts[1..], Entered(dict, ts[0].text, 0)))
  {
    FlatCons(done, ts[0].bytes, OutputStrings(ts[1..], Entered(dict, ts[0].text, 0)));
  }

  /** A text that is new: its bytes go to the end. */
  lemma NewString(ts: seq<Literal>, dict: map<string, int>, dict': map<string, int>, base: int, done: seq<char>)
    requires ts != [] && DistinctIds(ts)
    requires ts[0].text !in dict && ts[0].text !in dict'
    requires Agree(ts[1..], Entered(dict, ts[0].text, base + |done|), Entered(dict', ts[0].text, 0), base, done + ts[0].bytes)
    ensures Agree(ts, dict, dict', base, done)
  {
    hide *;
    var b, next := ts[0].bytes, base + |done|;
    var e, e' := Entered(dict, ts[0].text, next), Entered(dict', ts[0].text, 0);
    var more := OutputStrings(ts[1..], e');
    var p := PlaceStrings(ts[1..], e, next + |b|);
    PlaceNew(ts, dict, next);
    OutputNew(ts, dict', done);
    assert next + |b| == base + |done + b|;
    AgreeSays(ts[1..], e, e', base, done + b, p, (done + b) + Flat(more));
    NewLies(ts, p.0, next, base, done, Flat(more));
    AgreeSays(ts, dict, dict', base, done, (p.0[ts[0].id := next], p.1), (done + b) + Flat(more));
  }

  lemma AgreeSays(ts: seq<Literal>, dict: map<string, int>, dict': map<string, int>, base: int, done: seq<char>,
                  p: (map<int, int>, int), s: seq<char>)
    requires PlaceStrings(ts, dict, base + |done|) == p && done + Flat(OutputStrings(ts, dict')) == s
    ensures Agree(ts, dict, dict', base, done) <==> p.1 == base + |s| && AllLie(ts, p.0, base, s)
  {
    hide LiesAt, DistinctIds, Flat, PlaceStrings, OutputStrings, AllLie;
  }

  lemma NewLies(ts: seq<Literal>, m: map<int, int>, next: int, base: int, done: seq<char>, more: seq<char>)
    requires ts != [] && DistinctIds(ts)
    requires AllLie(ts[1..], m, base, (done + ts[0].bytes) + more) && next == base + |done|
    ensures AllLie(ts, m[ts[0].id := next], base, (done + ts[0].bytes) + more)
  {
    hide AllLie, LiesAt;
    var b := ts[0].bytes;
    LiesLast(done, b);
    LiesOn(done + b, |done|, b, more);
    OthersLie(ts, m, next, base, (done + b) + more);
  }

  /** A text that the dictionary has. */
  lemma OldString(ts: seq<Literal>, dict: map<string, int>, dict': map<string, int>, base: int, done: seq<char>)
    requires ts != [] && DistinctIds(ts)
    requires ts[0].text in dict && ts[0].text in dict' && LiesAt(done, dict[ts[0].text] - base, ts[0].bytes)
    requires Agree(ts[1..], dict, dict', base, done)
    ensures Agree(ts, dict, dict', base, done)
  {
    var more := OutputStrings(ts[1..], dict');
    assert OutputStrings(ts, dict') == more;
    hide AllLie, LiesAt, DistinctIds, Flat, OutputStrings;
    LiesOn(done, dict[ts[0].text] - base, ts[0].bytes, Flat(more));
    OthersLie(ts, PlaceStrings(ts[1..], dict, base + |done|).0, dict[ts[0].text], base, done + Flat(more));
  }

  /** The two passes agree on the strings: each literal's bytes lie at its address. */
  lemma {:induction false} StringsLie(ts: seq<Literal>, dict: map<string, int>, dict': map<string, int>, base: int, done: seq<char>)
    requires NoClash(ts) && DistinctIds(ts)
    requires dict.Keys == dict'.Keys && DictOk(ts, dict, base, done)
    ensures Agree(ts, dict, dict', base, done)
    decreases |ts|
  {
    if ts == [] {
      assert done + Flat([]) == done;
    } else {
      hide Agree, LiesAt, NoClash, DistinctIds;
      SameSize(dict, dict');
      RestOk(ts);
      if ts[0].text in dict {
        StringsLie(ts[1..], dict, dict', base, done);
        OldString(ts, dict, dict', base, done);
      } else {
        EntersRight(ts, dict, base, done);
        StringsLie(ts[1..], Entered(dict, ts[0].text, base + |done|), Entered(dict', ts[0].text, 0), base, done + ts[0].bytes);
        NewString(ts, dict, dict', base, done);
      }
    }
  }

  /** So each of a wrap's literals lies where the first pass puts it. */
  lemma LiteralLies(ts: seq<Literal>, size: int, l: Literal)
    requires NoClash(ts) && DistinctIds(ts) && l in ts
    ensures var m := PlaceStrings(ts, map[], size).0;
            l.id in m && LiesAt(Flat(OutputStrings(ts, map[])), m[l.id] - size, l.bytes)
  {
    hide LiesAt, NoClash, DistinctIds;
    StringsLie(ts, map[], map[], size, []);
    hide PlaceStrings, OutputStrings;
    var bytes := Flat(OutputStrings(ts, map[]));
    assert [] + bytes == bytes && |bytes[..0]| == 0;
    assert AllLie(ts, PlaceStrings(ts, map[], size).0, size, bytes);
  }

  // ----- strings are shared -----

  ghost function Texts(ts: seq<Literal>): set<string> {
    set t | t in ts :: t.text
  }

  lemma TextsCons(ts: seq<Literal>)
    requires ts != []
    ensures Texts(ts) == {ts[0].text} + Texts(ts[1..])
  {
    assert forall t | t in ts :: t == ts[0] || t in ts[1..];
    assert ts[0] in ts && forall t | t in ts[1..] :: t in ts;
  }

  lemma RoomForOneMore(keys: set<string>, text: string, all: set<string>)
    requires text !in keys && keys + {text} <= all && |all| <= 257
    ensures |keys| <= 256
  {
    assert |keys + {text}| == |keys| + 1;
    assert all == (keys + {text}) + (all - (keys + {text}));
  }

  /** What a text adds to those in the dictionary. */
  lemma TextsStep(ts: seq<Literal>, keys: set<string>)
    requires ts != []
    ensures var text, rest := ts[0].text, Texts(ts[1..]);
            if text in keys then keys + Texts(ts) == keys + rest && Texts(ts) - keys == rest - keys
            else keys + Texts(ts) == (keys + {text}) + rest && |Texts(ts) - keys| == 1 + |rest - (keys + {text})|
  {
    TextsCons(ts);
    hide Texts;
    var text, rest := ts[0].text, Texts(ts[1..]);
    if text in keys {
      assert keys + ({text} + rest) == keys + rest && ({text} + rest) - keys == rest - keys;
    } else {
      assert ({text} + rest) - keys == {text} + (rest - (keys + {text}));
      assert keys + ({text} + rest) == (keys + {text}) + rest;
    }
  }

  /** While there is room a new text is entered. */
  lemma EntersText(ts: seq<Literal>, dict: map<string, int>, adr: int)
    requires ts != [] && ts[0].text !in dict && |dict.Keys + Texts(ts)| <= 257
    ensures Entered(dict, ts[0].text, adr) == dict[ts[0].text := adr]
    ensures dict[ts[0].text := adr].Keys == dict.Keys + {ts[0].text}
  {
    TextsCons(ts);
    hide Texts;
    RoomForOneMore(dict.Keys, ts[0].text, dict.Keys + Texts(ts));
    KeysCount(dict);
    KeysEntered(dict, ts[0].text, adr);
  }

  lemma KeysCount(dict: map<string, int>)
    ensures |dict| == |dict.Keys|
  {
  }

  lemma KeysEntered(dict: map<string, int>, text: string, adr: int)
    ensures dict[text := adr].Keys == dict.Keys + {text}
  {
  }

  lemma OutputStep(ts: seq<Literal>, dict: map<string, int>)
    requires ts != []
    ensures |OutputStrings(ts, dict)| ==
            if ts[0].text in dict then |OutputStrings(ts[1..], dict)|
            else 1 + |OutputStrings(ts[1..], Entered(dict, ts[0].text, 0))|
  {
  }

  /** When it is full it takes no more. */
  lemma FullTakesNoMore(dict: map<string, int>, text: string, adr: int)
    ensures |dict| >= 257 ==> Entered(dict, text, adr) == dict
  {
  }

  /** As long as the dictionary has room, every text is put out once. */
  lemma {:induction false} OncePerText(ts: seq<Literal>, dict: map<string, int>)
    requires |dict.Keys + Texts(ts)| <= 257
    ensures |OutputStrings(ts, dict)| == |Texts(ts) - dict.Keys|
    decreases |ts|
  {
    if ts == [] {
      assert Texts(ts) == {};
    } else {
      hide *;
      TextsStep(ts, dict.Keys);
      OutputStep(ts, dict);
      if ts[0].text in dict {
        OncePerText(ts[1..], dict);
      } else {
        EntersText(ts, dict, 0);
        OncePerText(ts[1..], Entered(dict, ts[0].text, 0));
      }
    }
  }

  /** A literal whose text is known gets the address of that text. */
  lemma {:induction false} KnownText(ts: seq<Literal>, dict: map<string, int>, next: int, k: nat)
    requires DistinctIds(ts) && k < |ts| && ts[k].text in dict
    ensures ts[k].id in PlaceStrings(ts, dict, next).0 && PlaceStrings(ts, dict, next).0[ts[k].id] == dict[ts[k].text]
    decreases |ts|
  {
    if k > 0 {
      assert DistinctIds(ts[1..]) && ts[1..][k - 1] == ts[k] && ts[0].id != ts[k].id;
      if ts[0].text in dict { KnownText(ts[1..], dict, next, k - 1); }
      else { KnownText(ts[1..], Entered(dict, ts[0].text, next), next + |ts[0].bytes|, k - 1); }
    }
  }

  /** What the first literal's place leaves to the others. */
  /** The dictionary and the address behind the first literal. */
  function NextDict(ts: seq<Literal>, dict: map<string, int>, next: int): map<string, int>
    requires ts != []
  {
    if ts[0].text in dict then dict else Entered(dict, ts[0].text, next)
  }

  function NextAdr(ts: seq<Literal>, dict: map<string, int>, next: int): int
    requires ts != []
  {
    if ts[0].text in dict then next else next + |ts[0].bytes|
  }

  /** What the first literal's place leaves to the others. */
  lemma PlaceStep(ts: seq<Literal>, dict: map<string, int>, next: int)
    requires ts != []
    ensures PlaceStrings(ts, dict, next).0 ==
            PlaceStrings(ts[1..], NextDict(ts, dict, next), NextAdr(ts, dict, next)).0
              [ts[0].id := if ts[0].text in dict then dict[ts[0].text] else next]
  {
  }

  lemma RoomRemains(ts: seq<Literal>, dict: map<string, int>, next: int)
    requires ts != [] && |dict.Keys + Texts(ts)| <= 257
    ensures var d := NextDict(ts, dict, next);
            && |d.Keys + Texts(ts[1..])| <= 257 && ts[0].text in d
            && d[ts[0].text] == if ts[0].text in dict then dict[ts[0].text] else next
  {
    hide Texts, Entered;
    TextsStep(ts, dict.Keys);
    if ts[0].text !in dict { EntersText(ts, dict, next); }
  }

  lemma IdsOfRest(ts: seq<Literal>, k: nat)
    requires DistinctIds(ts) && 0 < k < |ts|
    ensures DistinctIds(ts[1..]) && ts[1..][k - 1] == ts[k] && ts[0].id != ts[k].id
  {
  }

  ghost predicate Share(m: map<int, int>, t: Literal, u: Literal) {
    t.id in m && u.id in m && m[t.id] == m[u.id]
  }

  lemma FirstShares(ts: seq<Literal>, dict: map<string, int>, next: int, j: nat)
    requires DistinctIds(ts) && 0 < j < |ts| && ts[0].text == ts[j].text && |dict.Keys + Texts(ts)| <= 257
    ensures Share(PlaceStrings(ts, dict, next).0, ts[0], ts[j])
  {
    hide PlaceStrings, NextDict, NextAdr, Texts, DistinctIds;
    PlaceStep(ts, dict, next);
    RoomRemains(ts, dict, next);
    IdsOfRest(ts, j);
    KnownText(ts[1..], NextDict(ts, dict, next), NextAdr(ts, dict, next), j - 1);
  }

  /** Literals with the same text share an address, as long as the dictionary has room, which is for 257 texts. */
  lemma {:induction false} SameTextSameAddress(ts: seq<Literal>, dict: map<string, int>, next: int, i: nat, j: nat)
    requires DistinctIds(ts) && i < j < |ts| && ts[i].text == ts[j].text && |dict.Keys + Texts(ts)| <= 257
    ensures Share(PlaceStrings(ts, dict, next).0, ts[i], ts[j])
    decreases |ts|
  {
    hide PlaceStrings, NextDict, NextAdr, Texts, DistinctIds;
    if i == 0 {
      FirstShares(ts, dict, next, j);
    } else {
      PlaceStep(ts, dict, next);
      RoomRemains(ts, dict, next);
      IdsOfRest(ts, i);
      IdsOfRest(ts, j);
      SameTextSameAddress(ts[1..], NextDict(ts, dict, next), NextAdr(ts, dict, next), i - 1, j - 1);
    }
  }
}
