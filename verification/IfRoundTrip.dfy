/** Why the parser reads back what is written: every tree, in any spacing, with no more parentheses
    than the grammar needs. */
module IfRoundTrip {
  import opened IfExpressions
  import opened IfParsing

  // ----- cursors -----

  lemma {:induction false} SkipOver(gap: string, t: string)
    requires AllSpace(gap)
    ensures Skip(gap + t) == Skip(t)
    decreases |gap|
  {
    if gap == "" { assert gap + t == t; }
    else {
      assert (gap + t)[1..] == gap[1..] + t;
      SkipOver(gap[1..], t);
    }
  }

  lemma SkipNone(t: string)
    requires t == "" || !IsSpace(t[0])
    ensures Skip(t) == t
  {
  }

  lemma {:induction false} SkipTwice(t: string)
    ensures Skip(Skip(t)) == Skip(t)
    decreases |t|
  {
    if t != "" && IsSpace(t[0]) { SkipTwice(t[1..]); }
  }

  lemma {:induction false} WordEnds(name: string, rest: string)
    requires AllWord(name) && (rest == "" || !IsWord(rest[0]))
    ensures WordLength(name + rest) == |name|
    decreases |name|
  {
    if name == "" { assert name + rest == rest; }
    else {
      assert (name + rest)[1..] == name[1..] + rest;
      WordEnds(name[1..], rest);
    }
  }

  lemma VariableReads(gap: string, name: string, rest: string)
    requires AllSpace(gap) && IsName(name) && (rest == "" || !IsWord(rest[0]))
    ensures ParseVariable(gap + name + rest) == Found(name, rest)
  {
    var t := name + rest;
    assert gap + name + rest == gap + t;
    assert !IsSpace(t[0]);
    SkipOver(gap, t);
    SkipNone(t);
    WordEnds(name, rest);
  }

  // ----- where an expression ends -----

  /** What comes next does not carry on an expression of this level. */
  predicate Stops(level: nat, rest: string) {
    && (rest == "" || !IsWord(rest[0]))
    && Peek(Skip(rest), 0) != '('
    && (forall k | 1 <= k <= level && k < 11 :: OpAt(k, Skip(rest)) == Nothing)
    && (level >= 11 ==> Peek(Skip(rest), 0) != '?')
  }

  /** Parsing `s` at this level comes to `rest` with value v. */
  predicate ParsesTo(g: Env, level: nat, s: string, rest: string, v: int) {
    var r := Parse(g, level, s);
    r.Ok? && r.val == v && Skip(r.rest) == Skip(rest) && (level >= 1 ==> r.rest == Skip(rest))
  }

  lemma {:induction false} Climb(g: Env, k: nat, level: nat, s: string, rest: string, v: int)
    requires ParsesTo(g, k, s, rest, v) && k <= level <= 11 && Stops(level, rest)
    ensures ParsesTo(g, level, s, rest, v)
    decreases level
  {
    if k < level {
      Climb(g, k, level - 1, s, rest, v);
      var l := Parse(g, level - 1, s);
      SkipTwice(rest);
      if level < 11 {
        assert OpAt(level, Skip(rest)) == Nothing;
        assert ParseRight(g, level, Skip(l.rest), l.val, |s|) == Ok(Skip(rest), v);
      } else {
        assert ParseChoice(g, Skip(l.rest), l.val, |s|) == Ok(Skip(rest), v);
      }
    }
  }

  /** A character that a value can begin with. */
  predicate IsStart(c: char) {
    c == '(' || c == '!' || c == '-' || c == '+' || c == '~' || c == '\'' || IsWord(c)
  }

  predicate Begins(s: string) {
    s != "" && (IsSpace(s[0]) || IsStart(s[0]))
  }

  lemma {:induction false} ShowBegins(e: Expr, level: nat)
    requires Good(e)
    ensures Begins(Show(e)) && Begins(ShowAt(e, level))
    decreases e
  {
    match e
    case Binary(b, l, space, r) => ShowBegins(l, BinLevel(b) - 1);
    case Cond(c, space, y, mid, n) => ShowBegins(c, 10);
    case Defined(gap, inner, paren, name, behind) => if gap == "" { assert Show(e)[0] == 'd'; }
    case Num(gap, base, pre, digits, post) => if gap == "" { LiteralBegins(base, pre, digits, post); }
    case _ =>
  }

  lemma LiteralBegins(base: nat, pre: string, digits: string, post: string)
    requires IsLiteral(base, pre, digits, post)
    ensures var s := pre + digits + post; s != "" && IsDigit(s[0])
  {
    if base == 10 { assert DigitOf(digits[0]) < 10; }
  }

  // ----- operators -----

  lemma OperatorReads(b: Bin, t: string)
    requires Begins(t)
    ensures forall k | 1 <= k < BinLevel(b) :: OpAt(k, BinText(b) + t) == Nothing
    ensures OpAt(BinLevel(b), BinText(b) + t) == Operator(b, |BinText(b)|)
  {
    var s := BinText(b) + t;
    assert |BinText(b)| == 1 ==> Peek(s, 1) == t[0];
  }

  /** In front of an operator, with any space, an expression of a lower level ends. */
  lemma StopsAtOperator(b: Bin, space: string, t: string)
    requires AllSpace(space) && Begins(t)
    ensures Stops(BinLevel(b) - 1, space + BinText(b) + t) && Skip(space + BinText(b) + t) == BinText(b) + t
  {
    var s := BinText(b) + t;
    assert space + BinText(b) + t == space + s;
    OperatorReads(b, t);
    SkipOver(space, s);
    OperatorBegins(b);
    hide OpAt, Skip, BinText, BinLevel;
    SkipNone(s);
  }

  lemma OperatorBegins(b: Bin)
    ensures var s := BinText(b); s != "" && !IsSpace(s[0]) && s[0] != '(' && s[0] != '?' && !IsWord(s[0])
    ensures 1 <= BinLevel(b) <= 10
  {
  }

  /** So it does in front of a mark that is no operator. */
  lemma StopsAtMark(space: string, c: char, t: string)
    requires AllSpace(space) && (c == ')' || c == ',' || c == ':' || c == '?')
    ensures Stops(10, space + [c] + t) && Skip(space + [c] + t) == [c] + t
    ensures c != '?' ==> Stops(11, space + [c] + t)
  {
    var s := [c] + t;
    assert space + [c] + t == space + s;
    SkipOver(space, s);
    SkipNone(s);
  }

  lemma StopsLower(k: nat, level: nat, rest: string)
    requires Stops(level, rest) && k <= level
    ensures Stops(k, rest)
  {
  }

  // ----- leaves -----

  lemma {:induction false} DigitsEnd(digits: string, rest: string, base: nat)
    requires AllDigits(digits, base) && (rest == "" || DigitOf(rest[0]) >= base)
    ensures DigitsLength(digits + rest, base) == |digits|
    decreases |digits|
  {
    if digits == "" { assert digits + rest == rest; }
    else {
      assert (digits + rest)[1..] == digits[1..] + rest;
      DigitsEnd(digits[1..], rest, base);
    }
  }

  lemma {:induction false} QualifiersEnd(post: string, rest: string)
    requires AllQualifiers(post) && (rest == "" || !IsWord(rest[0]))
    ensures SkipQualifiers(post + rest) == rest
    decreases |post|
  {
    if post == "" {
      assert post + rest == rest;
      if rest != "" { assert rest[..1][0] == rest[0]; }
    } else {
      assert (post + rest)[1..] == post[1..] + rest;
      assert (post + rest)[..1] == [post[0]];
      QualifiersEnd(post[1..], rest);
    }
  }

  lemma PrefixReads(base: nat, pre: string, digits: string, post: string, rest: string)
    requires IsLiteral(base, pre, digits, post) && (rest == "" || !IsWord(rest[0]))
    ensures var t := pre + (digits + (post + rest));
            && t != "" && IsDigit(t[0]) && Skip(t) == t && t[|pre|..] == digits + (post + rest)
            && base == if t[0] != '0' then 10 else if Peek(t, 1) == 'x' || Peek(t, 1) == 'X' then 16 else 8
  {
    var u := digits + (post + rest);
    var t := pre + u;
    if base == 10 { assert DigitOf(digits[0]) < 10; assert t == u; }
    if base == 8 && u != "" {
      assert t[1] == u[0] == if digits != "" then digits[0] else if post != "" then post[0] else rest[0];
      assert digits != "" ==> DigitOf(digits[0]) < 8;
    }
    SkipNone(t);
  }

  lemma NumberReads(base: nat, pre: string, digits: string, post: string, rest: string)
    requires IsLiteral(base, pre, digits, post) && (rest == "" || !IsWord(rest[0]))
    ensures ParseNumber(pre + (digits + (post + rest))) == Ok(rest, Positional(digits, base))
  {
    var tail := post + rest;
    var u := digits + tail;
    PrefixReads(base, pre, digits, post, rest);
    assert tail != "" ==> DigitOf(tail[0]) >= base;
    DigitsEnd(digits, tail, base);
    QualifiersEnd(post, rest);
    hide IsLiteral, Skip, Positional, DigitsLength, SkipQualifiers, AllDigits, AllQualifiers;
    assert |pre| == if base == 10 then 0 else if base == 8 then 1 else 2 by { LiteralPrefix(base, pre, digits, post); }
    assert u[|digits|..] == tail && u[..|digits|] == digits;
  }

  lemma LiteralPrefix(base: nat, pre: string, digits: string, post: string)
    requires IsLiteral(base, pre, digits, post)
    ensures |pre| == if base == 10 then 0 else if base == 8 then 1 else 2
  {
  }

  lemma CharacterReads(g: Env, escaped: bool, c: char, rest: string)
    requires if escaped then IsEscape(c) else !IsSpace(c) && c != '\'' && c != '\\'
    ensures var s := (if escaped then ['\\', c] else [c]) + ("'" + rest);
            ParseCharacter(g, s) == Ok("'" + rest, if escaped then EscapeValue(c) else c as int)
  {
    var q := "'" + rest;
    if escaped {
      var s := ['\\', c] + q;
      assert c != '\'';
      assert s[1..] == [c] + q && ([c] + q)[1..] == q;
      assert ToQuote([c] + q) == q;
    } else {
      var s := [c] + q;
      assert s[1..] == q && ToQuote(s) == q;
      SkipNone(s);
    }
  }

  lemma ShortName(name: string, rest: string)
    requires |name| < 7 && (rest == "" || !IsWord(rest[0]))
    ensures !("defined" <= name + rest)
  {
    var t, n := name + rest, |name|;
    assert IsWord("defined"[n]);
    if |t| >= 7 { assert t[n] == rest[0] != "defined"[n]; }
  }

  /** A name that is not `defined` is not taken for it, whatever follows. */
  lemma NotTakenForDefined(name: string, rest: string)
    requires IsName(name) && NotDefined(name) && (rest == "" || !IsWord(rest[0]))
    ensures !("defined" <= name + rest && !IsAlpha(Peek(name + rest, 7)) && !IsDigit(Peek(name + rest, 7)))
  {
    var t := name + rest;
    if "defined" <= t {
      if |name| < 7 { ShortName(name, rest); assert false; }
      assert t[..7] == "defined" && t[..7] == name[..7];
      if |name| > 7 { assert t[7] == name[7]; }
    }
  }

  /** A name that is taken for a variable or a macro. */
  lemma NamePath(g: Env, t: string, name: string, rest: string)
    requires t != "" && IsFirst(t[0]) && ParseVariable(t) == Found(name, rest)
    requires !("defined" <= t && !IsAlpha(Peek(t, 7)) && !IsDigit(Peek(t, 7)))
    ensures var u := Skip(rest);
            ParseValue(g, t) == if Peek(u, 0) != '(' then Ok(u, g.variable(name)) else ParseArgs(g, u)
  {
    SkipNone(t);
    hide Parse, ParseArgs, ParseDefined, ParseNumber, ParseCharacter, ParseAssertion, ParseVariable, Skip;
  }

  lemma VarReads(g: Env, name: string, rest: string)
    requires IsName(name) && NotDefined(name) && Stops(0, rest)
    ensures ParseValue(g, name + rest) == Ok(Skip(rest), g.variable(name))
  {
    hide ParseValue, ParseVariable, Skip, NotDefined;
    var t := name + rest;
    NotTakenForDefined(name, rest);
    assert "" + name + rest == t;
    VariableReads("", name, rest);
    NamePath(g, t, name, rest);
  }

  lemma CallReads(g: Env, name: string, inner: string, u: string)
    requires IsName(name) && NotDefined(name) && AllSpace(inner) && u != "" && u[0] == '('
    ensures ParseValue(g, name + (inner + u)) == ParseArgs(g, u)
  {
    SkipOver(inner, u);
    SkipNone(u);
    hide ParseValue, ParseVariable, Skip, NotDefined, ParseArgs;
    var t := name + (inner + u);
    assert (inner + u)[0] == if inner == "" then u[0] else inner[0];
    NotTakenForDefined(name, inner + u);
    assert "" + name + (inner + u) == t;
    VariableReads("", name, inner + u);
    NamePath(g, t, name, inner + u);
  }

  lemma DefinedPath(g: Env, t: string)
    requires "defined" <= t && !IsAlpha(Peek(t, 7)) && !IsDigit(Peek(t, 7))
    ensures ParseValue(g, t) == ParseDefined(g, t)
  {
    assert t[0] == "defined"[0];
    SkipNone(t);
  }

  lemma DefinedParenReads(g: Env, inner: string, name: string, behind: string, rest: string)
    requires AllSpace(inner) && AllSpace(behind) && IsName(name)
    ensures ParseDefined(g, "defined" + (inner + ("(" + (name + (behind + (")" + rest)))))) == Ok(rest, g.defined(name))
  {
    var w := ")" + rest;
    var v := behind + w;
    var u := "(" + (name + v);
    assert ("defined" + (inner + u))[7..] == inner + u;
    SkipOver(inner, u);
    SkipNone(u);
    SkipOver(behind, w);
    SkipNone(w);
    hide ParseVariable, Skip;
    assert u[1..] == name + v == "" + name + v;
    assert v[0] == if behind == "" then ')' else behind[0];
    VariableReads("", name, v);
    assert w[1..] == rest;
  }

  lemma DefinedBareReads(g: Env, inner: string, name: string, rest: string)
    requires AllSpace(inner) && IsName(name) && Stops(0, rest)
    ensures ParseDefined(g, "defined" + (inner + (name + rest))) == Ok(Skip(rest), g.defined(name))
  {
    var u := name + rest;
    assert ("defined" + (inner + u))[7..] == inner + u;
    SkipOver(inner, u);
    SkipNone(u);
    hide ParseVariable, Skip;
    assert u == "" + name + rest;
    VariableReads("", name, rest);
  }

  lemma DefinedReads(g: Env, inner: string, paren: bool, name: string, behind: string, rest: string)
    requires AllSpace(inner) && AllSpace(behind) && IsName(name) && (paren || inner != "") && Stops(0, rest)
    ensures var u := if paren then "(" + (name + (behind + (")" + rest))) else name + rest;
            ParseValue(g, "defined" + (inner + u)) == Ok(if paren then rest else Skip(rest), g.defined(name))
  {
    hide ParseValue, ParseDefined, Skip;
    var u := if paren then "(" + (name + (behind + (")" + rest))) else name + rest;
    var t := "defined" + (inner + u);
    assert Peek(t, 7) == (inner + u)[0] == if inner == "" then u[0] else inner[0];
    DefinedPath(g, t);
    if paren { DefinedParenReads(g, inner, name, behind, rest); } else { DefinedBareReads(g, inner, name, rest); }
  }

  // ----- values -----

  /** White space in front of a value does not matter. */
  lemma GapReads(g: Env, gap: string, t: string)
    requires AllSpace(gap)
    ensures ParseValue(g, gap + t) == ParseValue(g, t)
  {
    SkipOver(gap, t);
    hide Parse, ParseArgs, ParseDefined, ParseNumber, ParseCharacter, ParseAssertion, ParseVariable, Skip;
  }

  lemma DigitPath(g: Env, t: string)
    requires t != "" && IsDigit(t[0])
    ensures ParseValue(g, t) == ParseNumber(t)
  {
    SkipNone(t);
    hide Parse, ParseArgs, ParseDefined, ParseNumber, ParseCharacter, ParseAssertion, ParseVariable, Skip;
  }

  lemma QuotePath(g: Env, t: string, rest: string, v: int)
    requires ParseCharacter(g, t) == Ok("'" + rest, v)
    ensures ParseValue(g, "'" + t) == Ok(rest, v)
  {
    var s := "'" + t;
    SkipNone(s);
    assert s[1..] == t && ("'" + rest)[1..] == rest;
    hide Parse, ParseArgs, ParseDefined, ParseNumber, ParseCharacter, ParseAssertion, ParseVariable, Skip;
  }

  lemma UnaryPath(g: Env, un: Un, t: string, r: Parsed)
    requires ParseValue(g, t) == r && r.Ok?
    ensures ParseValue(g, [UnText(un)] + t) == Ok(r.rest, ApplyUn(un, r.val))
  {
    var s := [UnText(un)] + t;
    SkipNone(s);
    assert s[1..] == t;
    assert ParseUnary(g, un, s) == Ok(r.rest, ApplyUn(un, r.val));
    assert s[0] != '(';
    hide Parse, ParseArgs, ParseDefined, ParseNumber, ParseCharacter, ParseAssertion, ParseVariable, Skip;
  }

  lemma ParenPath(g: Env, t: string, rest: string, v: int)
    requires ParsesTo(g, 11, t, ")" + rest, v)
    ensures ParseValue(g, "(" + t) == Ok(rest, v)
  {
    var s := "(" + t;
    SkipNone(s);
    SkipNone(")" + rest);
    assert s[1..] == t && (")" + rest)[1..] == rest;
    hide Parse, ParseArgs, ParseDefined, ParseNumber, ParseCharacter, ParseAssertion, ParseVariable;
  }

  // ----- trees -----

  /** Every tree is read back, as far as it goes. */
  lemma {:induction false} Reads(g: Env, e: Expr, rest: string)
    requires Good(e) && Stops(Level(e), rest)
    ensures ParsesTo(g, Level(e), Show(e) + rest, rest, Value(g, e))
    decreases e, 0
  {
    hide ParseValue, Stops, Skip;
    SkipTwice(rest);
    if e.Binary? { BinaryReads(g, e, rest); }
    else if e.Cond? { CondReads(g, e, rest); }
    else if e.Num? || e.Chr? || e.Var? || e.Defined? { LeafReads(g, e, rest); }
    else { NestReads(g, e, rest); }
  }

  lemma NumReads(g: Env, e: Expr, rest: string)
    requires e.Num? && Good(e) && Stops(0, rest)
    ensures ParseValue(g, Show(e) + rest) == Ok(rest, Value(g, e))
  {
    var t := e.pre + (e.digits + (e.post + rest));
    assert Show(e) + rest == e.gap + t;
    GapReads(g, e.gap, t);
    PrefixReads(e.base, e.pre, e.digits, e.post, rest);
    NumberReads(e.base, e.pre, e.digits, e.post, rest);
    DigitPath(g, t);
    hide ParseValue, Skip, ParseNumber, IsLiteral, Positional;
  }

  lemma ChrReads(g: Env, e: Expr, rest: string)
    requires e.Chr? && Good(e)
    ensures ParseValue(g, Show(e) + rest) == Ok(rest, Value(g, e))
  {
    hide ParseValue, Skip, ParseCharacter;
    var t := (if e.escaped then ['\\', e.c] else [e.c]) + ("'" + rest);
    assert Show(e) + rest == e.gap + ("'" + t);
    GapReads(g, e.gap, "'" + t);
    CharacterReads(g, e.escaped, e.c, rest);
    QuotePath(g, t, rest, Value(g, e));
  }

  lemma NameReads(g: Env, e: Expr, rest: string)
    requires e.Var? && Good(e) && Stops(0, rest)
    ensures ParseValue(g, Show(e) + rest) == Ok(Skip(rest), Value(g, e))
  {
    hide ParseValue, Skip, Stops, NotDefined;
    assert Show(e) + rest == e.gap + (e.name + rest);
    GapReads(g, e.gap, e.name + rest);
    VarReads(g, e.name, rest);
  }

  lemma DefReads(g: Env, e: Expr, rest: string)
    requires e.Defined? && Good(e) && Stops(0, rest)
    ensures ParseValue(g, Show(e) + rest) == Ok(if e.paren then rest else Skip(rest), Value(g, e))
  {
    hide ParseValue, Skip, Stops;
    var u := if e.paren then "(" + (e.name + (e.behind + (")" + rest))) else e.name + rest;
    assert Show(e) + rest == e.gap + ("defined" + (e.inner + u));
    GapReads(g, e.gap, "defined" + (e.inner + u));
    DefinedReads(g, e.inner, e.paren, e.name, e.behind, rest);
  }

  lemma LeafReads(g: Env, e: Expr, rest: string)
    requires (e.Num? || e.Chr? || e.Var? || e.Defined?) && Good(e) && Stops(0, rest)
    ensures ParsesTo(g, 0, Show(e) + rest, rest, Value(g, e))
  {
    SkipTwice(rest);
    hide ParseValue, Skip, Stops, Good, Show, Value;
    if e.Num? { NumReads(g, e, rest); }
    else if e.Chr? { ChrReads(g, e, rest); }
    else if e.Var? { NameReads(g, e, rest); }
    else { DefReads(g, e, rest); }
  }

  lemma {:induction false} NestReads(g: Env, e: Expr, rest: string)
    requires (e.Unary? || e.Paren? || e.Call?) && Good(e) && Stops(0, rest)
    ensures ParsesTo(g, 0, Show(e) + rest, rest, Value(g, e))
    decreases e, -1
  {
    hide ParseValue, ParseArgs, Stops, Skip;
    match e
    case Unary(gap, u, a) =>
      var t := ShowAt(a, 0) + rest;
      assert Show(e) + rest == gap + ([UnText(u)] + t);
      GapReads(g, gap, [UnText(u)] + t);
      ReadsAt(g, a, 0, rest);
      UnaryPath(g, u, t, Parse(g, 0, t));
    case Paren(gap, b, behind) =>
      var t := ShowAt(b, 11) + (behind + ")" + rest);
      assert Show(e) + rest == gap + ("(" + t);
      GapReads(g, gap, "(" + t);
      StopsAtMark(behind, ')', rest);
      ReadsAt(g, b, 11, behind + ")" + rest);
      SameStop(g, 11, t, behind + ")" + rest, ")" + rest, Value(g, b));
      ParenPath(g, t, rest, Value(g, b));
    case Call(gap, name, inner, args) =>
      var u := "(" + ShowArgs(args) + rest;
      assert Show(e) + rest == gap + (name + (inner + u));
      GapReads(g, gap, name + (inner + u));
      CallReads(g, name, inner, u);
      ArgsRead(g, args, '(', rest);
  }

  lemma SameStop(g: Env, level: nat, s: string, rest: string, rest': string, v: int)
    requires ParsesTo(g, level, s, rest, v) && Skip(rest) == rest'
    ensures ParsesTo(g, level, s, rest', v)
  {
    SkipTwice(rest);
  }

  lemma {:induction false} ReadsAt(g: Env, e: Expr, level: nat, rest: string)
    requires Good(e) && level <= 11 && Stops(level, rest)
    ensures ParsesTo(g, level, ShowAt(e, level) + rest, rest, Value(g, e))
    decreases e, 1
  {
    hide ParseValue, Stops, Skip;
    if Level(e) <= level {
      StopsLower(Level(e), level, rest);
      Reads(g, e, rest);
      Climb(g, Level(e), level, Show(e) + rest, rest, Value(g, e));
    } else {
      var behind := ")" + rest;
      ClosesAll(Level(e), rest);
      Reads(g, e, behind);
      hide Show, Value, Good;
      ReadsInParens(g, Level(e), level, Show(e), rest, Value(g, e));
      assert ShowAt(e, level) + rest == "(" + (Show(e) + behind);
    }
  }

  /** A value in parentheses, in front of what a value at this level stops at. */
  lemma ReadsInParens(g: Env, low: nat, level: nat, shown: string, rest: string, v: int)
    requires low <= 11 && level <= 11 && Stops(level, rest) && ParsesTo(g, low, shown + (")" + rest), ")" + rest, v)
    ensures ParsesTo(g, level, "(" + (shown + (")" + rest)), rest, v)
  {
    hide Stops, Skip;
    var t := shown + (")" + rest);
    ClosesAll(11, rest);
    Climb(g, low, 11, t, ")" + rest, v);
    InParens(g, t, rest, v);
    Climb(g, 0, level, "(" + t, rest, v);
  }

  lemma InParens(g: Env, t: string, rest: string, v: int)
    requires ParsesTo(g, 11, t, ")" + rest, v)
    ensures ParsesTo(g, 0, "(" + t, rest, v)
  {
    hide Stops, Skip, ParseValue;
    ParenPath(g, t, rest, v);
  }

  lemma ClosesAll(low: nat, rest: string)
    requires low <= 11
    ensures Stops(low, ")" + rest)
  {
    StopsAtMark("", ')', rest);
    assert "" + ")" + rest == ")" + rest;
    StopsLower(low, 11, ")" + rest);
  }

  lemma {:induction false} ArgsRead(g: Env, a: Args, c: char, rest: string)
    requires GoodArgs(a)
    ensures ParseArgs(g, [c] + ShowArgs(a) + rest) == Ok(rest, 1)
    decreases a, 0
  {
    hide Parse, Stops, Skip;
    var u := [c] + ShowArgs(a) + rest;
    match a
    case Final(e, behind) =>
      var t := behind + ")" + rest;
      assert u[1..] == ShowAt(e, 11) + t;
      StopsAtMark(behind, ')', rest);
      ReadsAt(g, e, 11, t);
      assert (")" + rest)[1..] == rest;
    case More(e, behind, others) =>
      var t := behind + "," + (ShowArgs(others) + rest);
      assert u[1..] == ShowAt(e, 11) + t;
      StopsAtMark(behind, ',', ShowArgs(others) + rest);
      ReadsAt(g, e, 11, t);
      assert "," + (ShowArgs(others) + rest) == [','] + ShowArgs(others) + rest;
      ArgsRead(g, others, ',', rest);
  }

  lemma {:induction false} BinaryReads(g: Env, e: Expr, rest: string)
    requires e.Binary? && Good(e) && Stops(Level(e), rest)
    ensures ParsesTo(g, Level(e), Show(e) + rest, rest, Value(g, e))
    decreases e, -1
  {
    hide ParseValue, Stops, Skip, OpAt;
    var k := BinLevel(e.bin);
    var right := ShowAt(e.right, k) + rest;
    var t := e.space + BinText(e.bin) + right;
    var s := ShowAt(e.left, k - 1) + t;
    assert Show(e) + rest == s;
    ShowBegins(e.right, k);
    StopsAtOperator(e.bin, e.space, right);
    OperatorReads(e.bin, right);
    ReadsAt(g, e.left, k - 1, t);
    ReadsAt(g, e.right, k, rest);
    SkipTwice(t);
    RightPath(g, k, e.bin, right, s, Parse(g, k - 1, s));
  }

  /** A left operand, an operator, and a right operand. */
  lemma RightPath(g: Env, level: nat, b: Bin, right: string, s: string, l: Parsed)
    requires 1 <= level == BinLevel(b) && Begins(right) && Parse(g, level, right).Ok?
    requires Parse(g, level - 1, s) == l && l.Ok? && Skip(l.rest) == BinText(b) + right
    ensures var r := Parse(g, level, right);
            Parse(g, level, s) == Ok(r.rest, Apply(b, l.val, r.val))
  {
    var t := BinText(b) + right;
    OperatorReads(b, right);
    assert t[|BinText(b)|..] == right;
    hide OpAt, Skip, BinText, Apply;
    assert ParseRight(g, level, t, l.val, |s|) == Ok(Parse(g, level, right).rest, Apply(b, l.val, Parse(g, level, right).val));
  }

  lemma {:induction false} CondReads(g: Env, e: Expr, rest: string)
    requires e.Cond? && Good(e) && Stops(11, rest)
    ensures ParsesTo(g, 11, Show(e) + rest, rest, Value(g, e))
    decreases e, -1
  {
    hide ParseValue, Stops, Skip;
    var no := ShowAt(e.no, 11) + rest;
    var mid := e.mid + ":" + no;
    var yes := ShowAt(e.yes, 11) + mid;
    var t := e.space + "?" + yes;
    var s := ShowAt(e.test, 10) + t;
    assert Show(e) + rest == s;
    StopsAtMark(e.space, '?', yes);
    StopsAtMark(e.mid, ':', no);
    ReadsAt(g, e.test, 10, t);
    ReadsAt(g, e.yes, 11, mid);
    ReadsAt(g, e.no, 11, rest);
    SkipTwice(t);
    SkipTwice(mid);
    ChoicePath(g, s, yes, no, Parse(g, 10, s));
  }

  lemma ChoicePath(g: Env, s: string, yes: string, no: string, l: Parsed)
    requires Parse(g, 10, s) == l && l.Ok? && Skip(l.rest) == "?" + yes
    requires var y := Parse(g, 11, yes); y.Ok? && Skip(y.rest) == ":" + no
    requires Parse(g, 11, no).Ok?
    ensures var y, n := Parse(g, 11, yes), Parse(g, 11, no);
            Parse(g, 11, s) == Ok(n.rest, if l.val != 0 then y.val else n.val)
  {
    var t := "?" + yes;
    assert t[1..] == yes && (":" + no)[1..] == no;
    hide Skip;
    var y, n := Parse(g, 11, yes), Parse(g, 11, no);
    assert ParseChoice(g, t, l.val, |s|) == Ok(n.rest, if l.val != 0 then y.val else n.val);
  }

  /** What is written is read: all of the text, and the tree's value. */
  lemma RoundTrip(g: Env, e: Expr)
    requires Good(e)
    ensures ParseIfExpression(g, ShowAt(e, 11)) == Ok("", Value(g, e))
  {
    assert Stops(11, "") by { assert Skip("") == ""; }
    assert ShowAt(e, 11) + "" == ShowAt(e, 11);
    ReadsAt(g, e, 11, "");
  }

  // ----- where it does not -----

  /** A value that stands alone is what all eleven levels above it make of it. */
  lemma Alone(g: Env, s: string, rest: string, v: int)
    requires ParseValue(g, s) == Ok(rest, v) && Stops(11, rest)
    ensures ParseIfExpression(g, s) == Ok(Skip(rest), v)
  {
    assert Parse(g, 0, s) == Ok(rest, v);
    Climb(g, 0, 11, s, rest, v);
  }

  /** A character constant is read as it stands exactly when its character is no white space, no
      quote and no backslash: white space is skipped behind the opening quote, too. */
  lemma PlainCharacters(g: Env, c: char)
    ensures ParseIfExpression(g, "'" + [c] + "'") == Ok("", c as int) <==> !IsSpace(c) && c != '\'' && c != '\\'
  {
    var s := "'" + [c] + "'";
    var t := [c] + "'";
    var r := if c == '\'' then "'" else "";
    assert s == "'" + t && t[1..] == "'";
    assert "'" + r == if c == '\'' then "''" else "'";
    assert Skip("'") == "'" && ToQuote("'") == "'";
    var v := if !IsSpace(c) && c != '\'' && c != '\\' then c as int else 39;
    assert ParseCharacter(g, t) == Ok("'" + r, v);
    QuotePath(g, t, r, v);
    assert Stops(11, r) by { assert Skip(r) == r; }
    Alone(g, s, r, v);
  }

  /** The constant of a quote leaves its last quote behind, and so no expression can hold it. */
  lemma EscapedQuote(g: Env)
    ensures ParseIfExpression(g, "'\\\''") == Ok("'", 39)
  {
    var t := "\\\'";
    var q := t + "'";
    assert "'\\\''" == "'" + q;
    assert q[1..] == "''" && ToQuote(q[1..]) == q[1..] && Skip(q) == q;
    assert ParseCharacter(g, q) == Ok("'" + "'", 39);
    QuotePath(g, q, "'", 39);
    assert Stops(11, "'") by { assert Skip("'") == "'"; }
    Alone(g, "'\\\''", "'", 39);
  }

  /** A variable is read as itself exactly when its name does not begin like `defined_`, and is not
      `defined`; otherwise the rest of the name is asked for. */
  lemma VariablesOrDefined(g: Env, name: string)
    requires IsName(name)
    ensures NotDefined(name) ==> ParseIfExpression(g, name) == Ok("", g.variable(name))
    ensures !NotDefined(name) && |name| > 7 ==> ParseIfExpression(g, name) == Ok("", g.defined(name[7..]))
    ensures name == "defined" ==> ParseIfExpression(g, name) == Err
  {
    assert Stops(11, "") && Skip("") == "";
    assert name + "" == name;
    if NotDefined(name) {
      VarReads(g, name, "");
      Alone(g, name, "", g.variable(name));
    } else {
      var w := name[7..];
      DefinedPath(g, name);
      if w != "" {
        assert IsName(w) by { assert forall k | 0 <= k < |w| :: w[k] == name[k + 7]; }
        assert name == "defined" + ("" + (w + ""));
        DefinedBareReads(g, "", w, "");
        Alone(g, name, "", g.defined(w));
      } else {
        DefinedAlone(g);
      }
    }
  }

  lemma DefinedAlone(g: Env)
    ensures ParseIfExpression(g, "defined") == Err
  {
    var t := "defined";
    assert t[7..] == "" && Skip("") == "";
    assert ParseDefined(g, t) == Err;
    DefinedPath(g, t);
    ErrClimbs(g, 11, t);
  }

  lemma {:induction false} ErrClimbs(g: Env, level: nat, s: string)
    requires Parse(g, 0, s) == Err && level <= 11
    ensures Parse(g, level, s) == Err
    decreases level
  {
    if level > 0 { ErrClimbs(g, level - 1, s); }
  }
}
