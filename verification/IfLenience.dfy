/** What the parser accepts beyond C. */
module IfLenience {
  import opened IfExpressions
  import opened IfParsing
  import opened IfRoundTrip

  /** A single `=` between two operands compares them. */
  lemma SingleEquals(g: Env, l: Expr, r: Expr)
    requires Good(l) && Good(r)
    ensures ParseIfExpression(g, ShowAt(l, 4) + "=" + ShowAt(r, 5)) == Ok("", Apply(Eq, Value(g, l), Value(g, r)))
  {
    var right := ShowAt(r, 5);
    var t := "=" + right;
    var s := ShowAt(l, 4) + t;
    assert ShowAt(l, 4) + "=" + right == s;
    ShowBegins(r, 5);
    StopsAtEquals(right);
    EndStops();
    assert right + "" == right;
    hide ParseValue, Stops, Skip, OpAt, ShowAt, Value, Apply;
    ReadsAt(g, l, 4, t);
    ReadsAt(g, r, 5, "");
    assert t[1..] == right;
    var lr := Parse(g, 4, s);
    assert Skip("") == "" by { NothingToSkip(); }
    assert ParseRight(g, 5, t, lr.val, |s|) == Ok("", Apply(Eq, Value(g, l), Value(g, r)));
    assert Parse(g, 5, s) == Ok("", Apply(Eq, Value(g, l), Value(g, r)));
    Climb(g, 5, 11, s, "", Apply(Eq, Value(g, l), Value(g, r)));
  }

  lemma NothingToSkip()
    ensures Skip("") == ""
  {
  }

  lemma EndStops()
    ensures Stops(11, "") && Stops(5, "")
  {
    assert Skip("") == "";
  }

  lemma StopsAtEquals(right: string)
    requires Begins(right)
    ensures Stops(4, "=" + right) && Skip("=" + right) == "=" + right && OpAt(5, "=" + right) == Operator(Eq, 1)
  {
    SkipNone("=" + right);
    assert Peek("=" + right, 1) == right[0];
  }

  /** An assertion `#name(word)` counts as true. */
  lemma AssertionReads(g: Env, name: string, word: string)
    requires IsName(name) && IsName(word)
    ensures ParseIfExpression(g, "#" + (name + ("(" + (word + ")")))) == Ok("", 1)
  {
    hide *;
    var u := "(" + (word + ")");
    var t := "#" + (name + u);
    ListReads(word);
    NameReadsOn(name, u);
    AssertionPath(g, t);
    EndStops();
    NothingToSkip();
    Alone(g, t, "", 1);
  }

  lemma ListReads(word: string)
    requires IsName(word)
    ensures ParseList("(" + (word + ")")) == Ok("", 1)
  {
    var u := "(" + (word + ")");
    assert u[1..] == word + ")" && "" + word + ")" == word + ")" && ")"[1..] == "";
    VariableReads("", word, ")");
    SkipNone(")");
    hide Skip, ParseVariable;
  }

  lemma NameReadsOn(name: string, u: string)
    requires IsName(name) && u != "" && u[0] == '('
    ensures ParseAssertion("#" + (name + u)) == ParseList(u)
  {
    var t := "#" + (name + u);
    assert t[1..] == name + u && "" + name + u == name + u;
    VariableReads("", name, u);
    SkipNone(u);
    hide Skip, ParseVariable, ParseList;
  }

  lemma AssertionPath(g: Env, t: string)
    requires t != "" && t[0] == '#'
    ensures ParseValue(g, t) == ParseAssertion(t)
  {
    SkipNone(t);
    hide Parse, ParseArgs, ParseDefined, ParseNumber, ParseCharacter, ParseAssertion, ParseVariable, Skip;
  }

  /** Of several characters between quotes the first one counts. */
  lemma LongCharacter(g: Env, c: char, more: string)
    requires !IsSpace(c) && c != '\'' && c != '\\' && '\'' !in more
    ensures ParseIfExpression(g, "'" + ([c] + (more + "'"))) == Ok("", c as int)
  {
    var t := [c] + (more + "'");
    ToQuoteFinds([c] + more);
    assert ([c] + more) + "'" == t;
    SkipNone(t);
    assert ParseCharacter(g, t) == Ok("'", c as int);
    assert "'" + "" == "'";
    hide *;
    QuotePath(g, t, "", c as int);
    EndStops();
    NothingToSkip();
    Alone(g, "'" + t, "", c as int);
  }

  lemma {:induction false} ToQuoteFinds(s: string)
    requires '\'' !in s
    ensures ToQuote(s + "'") == "'"
    decreases |s|
  {
    if s == "" {
      assert s + "'" == "'";
    } else {
      assert (s + "'")[1..] == s[1..] + "'";
      ToQuoteFinds(s[1..]);
    }
  }

  /** Numeric escapes are read from behind the backslash, or behind the `x`. */
  lemma NumericEscapes(g: Env, digits: string)
    requires digits != "" && AllDigits(digits, 8)
    ensures ParseIfExpression(g, "'" + ("\\" + (digits + "'"))) == Ok("", g.strtol(digits + "'", 8))
    ensures ParseIfExpression(g, "'" + ("\\x" + (digits + "'"))) == Ok("", g.strtol(digits + "'", 16))
  {
    NoQuote(digits);
    EscapeReads(g, "\\", digits, g.strtol(digits + "'", 8));
    EscapeReads(g, "\\x", digits, g.strtol(digits + "'", 16));
  }

  lemma NoQuote(digits: string)
    requires digits != "" && AllDigits(digits, 8)
    ensures '\'' !in digits && '0' <= digits[0] <= '7'
  {
    assert DigitOf(digits[0]) < 8;
    assert DigitOf('\'') == 99;
  }

  lemma EscapeReads(g: Env, pre: string, digits: string, v: int)
    requires pre == "\\" || pre == "\\x"
    requires digits != "" && '\'' !in digits && '0' <= digits[0] <= '7'
    requires v == g.strtol(digits + "'", if pre == "\\" then 8 else 16)
    ensures ParseIfExpression(g, "'" + (pre + (digits + "'"))) == Ok("", v)
  {
    var t := pre + (digits + "'");
    ToQuoteFinds(pre + digits);
    assert (pre + digits) + "'" == t;
    SkipNone(t);
    assert t[|pre|..] == digits + "'";
    assert ParseCharacter(g, t) == Ok("'", v);
    assert "'" + "" == "'";
    hide *;
    QuotePath(g, t, "", v);
    EndStops();
    NothingToSkip();
    Alone(g, "'" + t, "", v);
  }

  /** Nothing at all counts as 0. */
  lemma NothingIsZero(g: Env, gap: string)
    requires AllSpace(gap)
    ensures ParseIfExpression(g, gap) == Ok("", 0)
  {
    assert gap + "" == gap;
    NothingToSkip();
    SkipOver(gap, "");
    EndStops();
    assert ParseValue(g, gap) == Ok("", 0);
    Alone(g, gap, "", 0);
  }

  // ----- what it does not accept -----

  lemma ErrAtOnce(g: Env, s: string)
    requires ParseValue(g, s) == Err
    ensures ParseIfExpression(g, s) == Err
  {
    assert Parse(g, 0, s) == Err;
    ErrClimbs(g, 11, s);
  }

  /** A parenthesis, a list or a character that is not closed, and a text that no value begins with, are
      errors. */
  lemma Unclosed(g: Env, e: Expr, name: string)
    requires Good(e) && IsName(name) && NotDefined(name)
    ensures ParseIfExpression(g, "(" + ShowAt(e, 11)) == Err
    ensures ParseIfExpression(g, name + ("(" + ShowAt(e, 11))) == Err
    ensures ParseIfExpression(g, "defined(" + name) == Err
  {
    hide *;
    UnclosedParen(g, e);
    UnclosedCall(g, e, name);
    UnclosedDefined(g, name);
    ErrAtOnce(g, "(" + ShowAt(e, 11));
    ErrAtOnce(g, name + ("(" + ShowAt(e, 11)));
    ErrAtOnce(g, "defined(" + name);
  }

  lemma UnclosedParen(g: Env, e: Expr)
    requires Good(e)
    ensures ParseValue(g, "(" + ShowAt(e, 11)) == Err
  {
    var s := "(" + ShowAt(e, 11);
    SkipNone(s);
    NothingToSkip();
    assert s[1..] == ShowAt(e, 11);
    hide Skip, ShowAt, Parse;
    RoundTrip(g, e);
  }

  lemma UnclosedCall(g: Env, e: Expr, name: string)
    requires Good(e) && IsName(name) && NotDefined(name)
    ensures ParseValue(g, name + ("(" + ShowAt(e, 11))) == Err
  {
    var u := "(" + ShowAt(e, 11);
    assert u[1..] == ShowAt(e, 11) && "" + u == u;
    NothingToSkip();
    hide Skip, ShowAt, Parse, ParseValue, NotDefined;
    RoundTrip(g, e);
    CallReads(g, name, "", u);
  }

  lemma UnclosedDefined(g: Env, name: string)
    requires IsName(name)
    ensures ParseValue(g, "defined(" + name) == Err
  {
    var u := "(" + name;
    var t := "defined" + u;
    assert "defined(" + name == t && t[7..] == u && u[1..] == name && "" + name + "" == name;
    SkipNone(u);
    VariableReads("", name, "");
    NothingToSkip();
    hide Skip, ParseVariable;
    assert ParseDefined(g, t) == Err;
    DefinedPath(g, t);
  }

  /** A character constant that is not closed, and a character that no value begins with. */
  lemma NoValue(g: Env, c: char)
    requires !IsSpace(c) && c != '\'' && c != '\\'
    ensures ParseIfExpression(g, "'" + [c]) == Err
    ensures !IsStart(c) && c != '#' ==> ParseIfExpression(g, [c]) == Err
  {
    OpenQuote(g, c);
    ErrAtOnce(g, "'" + [c]);
    if !IsStart(c) && c != '#' {
      NoStart(g, c);
      ErrAtOnce(g, [c]);
    }
  }

  lemma OpenQuote(g: Env, c: char)
    requires !IsSpace(c) && c != '\'' && c != '\\'
    ensures ParseValue(g, "'" + [c]) == Err
  {
    var s := "'" + [c];
    SkipNone(s);
    SkipNone([c]);
    assert s[1..] == [c] && [c][1..] == "";
    assert ToQuote("") == "" && ToQuote([c]) == "";
    hide Skip, Parse;
  }

  lemma NoStart(g: Env, c: char)
    requires !IsSpace(c) && !IsStart(c) && c != '#'
    ensures ParseValue(g, [c]) == Err
  {
    SkipNone([c]);
    hide Skip, Parse;
  }

  /** A conditional without its second half. */
  lemma NoColon(g: Env, c: Expr, y: Expr)
    requires Good(c) && Good(y)
    ensures ParseIfExpression(g, ShowAt(c, 10) + ("?" + ShowAt(y, 11))) == Err
  {
    var yes := ShowAt(y, 11);
    var t := "?" + yes;
    var s := ShowAt(c, 10) + t;
    assert "" + "?" + yes == t && t[1..] == yes;
    StopsAtMark("", '?', yes);
    NothingToSkip();
    hide Skip, ShowAt, ParseValue, Stops;
    ReadsAt(g, c, 10, t);
    RoundTrip(g, y);
    assert ParseChoice(g, t, Parse(g, 10, s).val, |s|) == Err;
  }
}
