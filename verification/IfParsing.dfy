/** ParseIfExpression(): recursive descent through twelve levels.  A cursor is what is left of the
    text. */
module IfParsing {
  import opened IfExpressions

  datatype Parsed = Err | Ok(rest: string, val: int)

  /** The character at cp[k]; NUL at and behind the end. */
  function Peek(s: string, k: nat): char {
    if k < |s| then s[k] else '\0'
  }

  function Skip(s: string): (r: string)
    ensures |r| <= |s|
  {
    if s != "" && IsSpace(s[0]) then Skip(s[1..]) else s
  }

  /** How many word characters s begins with. */
  function WordLength(s: string): (n: nat)
    ensures n <= |s|
  {
    if s != "" && IsWord(s[0]) then 1 + WordLength(s[1..]) else 0
  }

  datatype Name = NoName | Found(name: string, rest: string)

  function ParseVariable(s: string): (r: Name)
    ensures r.Found? ==> |r.rest| < |s|
  {
    var t := Skip(s);
    if t == "" || !IsFirst(t[0]) then NoName
    else
      var n := WordLength(t);
      Found(t[..n], t[n..])
  }

  /** How many digits of the base s begins with. */
  function DigitsLength(s: string, base: nat): (n: nat)
    ensures n <= |s|
  {
    if s != "" && DigitOf(s[0]) < base then 1 + DigitsLength(s[1..], base) else 0
  }

  function SkipQualifiers(s: string): (r: string)
    ensures |r| <= |s|
  {
    if s != "" && AllQualifiers(s[..1]) then SkipQualifiers(s[1..]) else s
  }

  function ParseNumber(s: string): (r: Parsed)
    ensures r.Ok? ==> |r.rest| < |s|
  {
    var t := Skip(s);
    if !IsDigit(Peek(t, 0)) then Err
    else
      var base := if t[0] != '0' then 10 else if Peek(t, 1) == 'x' || Peek(t, 1) == 'X' then 16 else 8;
      var u := t[if base == 10 then 0 else if base == 8 then 1 else 2..];
      var n := DigitsLength(u, base);
      Ok(SkipQualifiers(u[n..]), Positional(u[..n], base))
  }

  /** The text from the first quote on. */
  function ToQuote(s: string): (r: string)
    ensures |r| <= |s| && (r != "" ==> r[0] == '\'')
  {
    if s == "" || s[0] == '\'' then s else ToQuote(s[1..])
  }

  function ParseCharacter(g: Env, s: string): (r: Parsed)
    ensures r.Ok? ==> |r.rest| <= |s|
  {
    var t := Skip(s);
    var c := Peek(t, 1);
    var val :=
      if Peek(t, 0) != '\\' then Peek(t, 0) as int
      else if IsEscape(c) || c == '\'' then EscapeValue(c)
      else if c == 'x' then g.strtol(t[2..], 16)
      else g.strtol(t[1..], 8);
    Ok(ToQuote(t), val)
  }

  // ----- binary operators -----

  datatype Next = Nothing | Bad | Operator(bin: Bin, n: nat)

  /** The operator of this level that the cursor stands on, and its length. */
  function OpAt(level: nat, s: string): (r: Next)
    ensures r.Operator? ==> BinLevel(r.bin) == level && 1 <= r.n <= |s|
  {
    var c, d := Peek(s, 0), Peek(s, 1);
    match level
    case 1 => if c == '*' then Operator(Mul, 1) else if c == '/' then Operator(Div, 1)
              else if c == '%' then Operator(Mod, 1) else Nothing
    case 2 => if c == '+' then Operator(Add, 1) else if c == '-' then Operator(Sub, 1) else Nothing
    case 3 => if c == '<' && d == '<' then Operator(Shl, 2) else if c == '>' && d == '>' then Operator(Shr, 2)
              else Nothing
    case 4 => if c == '<' then (if d == '=' then Operator(Le, 2) else Operator(Lt, 1))
              else if c == '>' then (if d == '=' then Operator(Ge, 2) else Operator(Gt, 1))
              else Nothing
    case 5 => if c == '=' then Operator(Eq, if d == '=' then 2 else 1)
              else if c == '!' && d == '=' then Operator(Ne, 2) else Nothing
    case 6 => if c == '&' && d != '&' then Operator(BAnd, 1) else Nothing
    case 7 => if c == '^' then Operator(BXor, 1) else Nothing
    case 8 => if c == '|' && d != '|' then Operator(BOr, 1) else Nothing
    case 9 => if c != '&' then Nothing else if d != '&' then Bad else Operator(LAnd, 2)
    case 10 => if c != '|' then Nothing else if d != '|' then Bad else Operator(LOr, 2)
    case _ => Nothing
  }

  // ----- the descent -----

  /** parse_value() for level 0, parse_product() for 1, and so on to parse_cond() for 11. */
  function Parse(g: Env, level: nat, s: string): (r: Parsed)
    ensures r.Ok? ==> |r.rest| <= |s|
    decreases |s|, level, 1
  {
    if level == 0 then ParseValue(g, s)
    else
      var l := Parse(g, level - 1, s);
      if l.Err? then Err
      else if level < 11 then ParseRight(g, level, Skip(l.rest), l.val, |s|)
      else ParseChoice(g, Skip(l.rest), l.val, |s|)
  }

  /** What follows the left operand. */
  function ParseRight(g: Env, level: nat, t: string, val: int, size: nat): (r: Parsed)
    requires 1 <= level < 11 && |t| <= size
    ensures r.Ok? ==> |r.rest| <= |t|
    decreases size, level, 0
  {
    match OpAt(level, t)
    case Nothing => Ok(t, val)
    case Bad => Err
    case Operator(b, n) =>
      var right := Parse(g, level, t[n..]);
      if right.Err? then Err else Ok(right.rest, Apply(b, val, right.val))
  }

  /** What follows the condition. */
  function ParseChoice(g: Env, t: string, val: int, size: nat): (r: Parsed)
    requires |t| <= size
    ensures r.Ok? ==> |r.rest| <= |t|
    decreases size, 11, 0
  {
    if Peek(t, 0) != '?' then Ok(t, val)
    else
      var yes := Parse(g, 11, t[1..]);
      if yes.Err? then Err
      else
        var u := Skip(yes.rest);
        if Peek(u, 0) != ':' then Err
        else
          var no := Parse(g, 11, u[1..]);
          if no.Err? then Err else Ok(no.rest, if val != 0 then yes.val else no.val)
  }

  function ParseValue(g: Env, s: string): (r: Parsed)
    ensures r.Ok? ==> |r.rest| <= |s|
    decreases |s|, 0, 0
  {
    var t := Skip(s);
    if t == "" then Ok(t, 0)
    else if t[0] == '(' then
      var r := Parse(g, 11, t[1..]);
      if r.Err? || Peek(Skip(r.rest), 0) != ')' then Err else Ok(Skip(r.rest)[1..], r.val)
    else if t[0] == '!' then ParseUnary(g, Not, t)
    else if t[0] == '-' then ParseUnary(g, Minus, t)
    else if t[0] == '+' then ParseUnary(g, Plus, t)
    else if t[0] == '~' then ParseUnary(g, Compl, t)
    else if t[0] == '#' then ParseAssertion(t)
    else if t[0] == '\'' then
      var r := ParseCharacter(g, t[1..]);
      if r.Err? || Peek(r.rest, 0) != '\'' then Err else Ok(r.rest[1..], r.val)
    else if "defined" <= t && !IsAlpha(Peek(t, 7)) && !IsDigit(Peek(t, 7)) then ParseDefined(g, t)
    else if IsDigit(t[0]) then ParseNumber(t)
    else if !IsFirst(t[0]) then Err
    else
      var v := ParseVariable(t);
      if v.NoName? then Err
      else
        var u := Skip(v.rest);
        if Peek(u, 0) != '(' then Ok(u, g.variable(v.name)) else ParseArgs(g, u)
  }

  function ParseUnary(g: Env, un: Un, t: string): (r: Parsed)
    requires t != ""
    ensures r.Ok? ==> |r.rest| <= |t|
    decreases |t| - 1, 0, 1
  {
    var r := ParseValue(g, t[1..]);
    if r.Err? then Err else Ok(r.rest, ApplyUn(un, r.val))
  }

  /** The arguments of a macro call; the cursor stands on the parenthesis or the comma in front. */
  function ParseArgs(g: Env, u: string): (r: Parsed)
    requires u != ""
    ensures r.Ok? ==> |r.rest| <= |u|
    decreases |u| - 1, 12, 0
  {
    var r := Parse(g, 11, u[1..]);
    if r.Err? then Err
    else
      var w := Skip(r.rest);
      if Peek(w, 0) == ')' then Ok(w[1..], 1)
      else if Peek(w, 0) != ',' then Err
      else ParseArgs(g, w)
  }

  function ParseDefined(g: Env, t: string): (r: Parsed)
    requires "defined" <= t
    ensures r.Ok? ==> |r.rest| <= |t|
  {
    var u := Skip(t[7..]);
    var paren := Peek(u, 0) == '(';
    var v := ParseVariable(if paren then u[1..] else u);
    if v.NoName? then Err
    else
      var w := Skip(v.rest);
      if !paren then Ok(w, g.defined(v.name))
      else if Peek(w, 0) != ')' then Err
      else Ok(w[1..], g.defined(v.name))
  }

  /** #name(list) counts as true. */
  function ParseAssertion(t: string): (r: Parsed)
    requires t != ""
    ensures r.Ok? ==> |r.rest| <= |t|
  {
    var v := ParseVariable(t[1..]);
    if v.NoName? then Err
    else
      var u := Skip(v.rest);
      if Peek(u, 0) != '(' then Err else ParseList(u)
  }

  function ParseList(u: string): (r: Parsed)
    requires u != ""
    ensures r.Ok? ==> |r.rest| <= |u|
    decreases |u|
  {
    var v := ParseVariable(u[1..]);
    if v.NoName? then Err
    else
      var w := Skip(v.rest);
      if w == "" then Err else if w[0] == ')' then Ok(w[1..], 1) else ParseList(w)
  }

  function ParseIfExpression(g: Env, s: string): Parsed {
    Parse(g, 11, s)
  }
}
