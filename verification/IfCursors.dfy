/** The cursor loops of the parser: white space, names, numbers and character constants. */
module IfCursors {
  import opened IfExpressions
  import opened IfParsing

  method SkipSpace(s: string, start: nat) returns (cp: nat)
    requires start <= |s|
    ensures start <= cp <= |s| && s[cp..] == Skip(s[start..])
  {
    cp := start;
    while cp < |s| && IsSpace(s[cp])
      invariant start <= cp <= |s| && Skip(s[cp..]) == Skip(s[start..])
    {
      assert s[cp..][1..] == s[cp + 1..];
      cp := cp + 1;
    }
  }

  method Word(s: string, start: nat) returns (cp: nat)
    requires start <= |s|
    ensures start <= cp <= |s| && cp - start == WordLength(s[start..])
  {
    cp := start;
    while cp < |s| && IsWord(s[cp])
      invariant start <= cp <= |s| && WordLength(s[start..]) == cp - start + WordLength(s[cp..])
    {
      assert s[cp..][1..] == s[cp + 1..];
      cp := cp + 1;
    }
  }

  method Variable(s: string, start: nat) returns (ok: bool, varp: nat, cp: nat)
    requires start <= |s|
    ensures ok ==> varp <= cp <= |s| && ParseVariable(s[start..]) == Found(s[varp..cp], s[cp..])
    ensures !ok ==> ParseVariable(s[start..]) == NoName
  {
    cp := SkipSpace(s, start);
    varp := cp;
    if cp == |s| || !IsFirst(s[cp]) { return false, varp, cp; }
    assert s[cp..][1..] == s[cp + 1..];
    cp := Word(s, cp + 1);
    ok := true;
    hide Skip;
    assert s[varp..][..cp - varp] == s[varp..cp] && s[varp..][cp - varp..] == s[cp..];
  }

  method Digits(s: string, start: nat, base: nat) returns (cp: nat, val: int)
    requires start <= |s|
    ensures start <= cp <= |s| && cp - start == DigitsLength(s[start..], base) && val == Positional(s[start..cp], base)
  {
    cp, val := start, 0;
    while cp < |s| && DigitOf(s[cp]) < base
      invariant start <= cp <= |s| && val == Positional(s[start..cp], base)
      invariant DigitsLength(s[start..], base) == cp - start + DigitsLength(s[cp..], base)
    {
      assert s[cp..][1..] == s[cp + 1..];
      assert s[start..cp + 1][..cp - start] == s[start..cp];
      val := val * base + DigitOf(s[cp]);
      cp := cp + 1;
    }
  }

  method Number(s: string, start: nat) returns (ok: bool, cp: nat, val: int)
    requires start <= |s|
    ensures ok ==> cp <= |s| && ParseNumber(s[start..]) == Ok(s[cp..], val)
    ensures !ok ==> ParseNumber(s[start..]) == Err
  {
    hide Skip, Positional, DigitsLength, SkipQualifiers;
    cp := SkipSpace(s, start);
    val := 0;
    if cp == |s| || !IsDigit(s[cp]) { return false, cp, 0; }
    ghost var t := s[cp..];
    var base := 10;
    if s[cp] == '0' {
      cp := cp + 1;
      if cp < |s| && (s[cp] == 'x' || s[cp] == 'X') {
        base := 16;
        cp := cp + 1;
      } else {
        base := 8;
      }
    }
    var from := cp;
    ghost var u := s[from..];
    assert u == t[if base == 10 then 0 else if base == 8 then 1 else 2..];
    cp, val := Digits(s, from, base);
    assert u[..cp - from] == s[from..cp] && u[cp - from..] == s[cp..];
    cp := Qualifiers(s, cp);
    ok := true;
  }

  /** The cursor goes past the qualifiers of a number. */
  method Qualifiers(s: string, start: nat) returns (cp: nat)
    requires start <= |s|
    ensures start <= cp <= |s| && s[cp..] == SkipQualifiers(s[start..])
  {
    cp := start;
    while cp < |s| && (s[cp] == 'U' || s[cp] == 'u' || s[cp] == 'L' || s[cp] == 'l')
      invariant start <= cp <= |s| && SkipQualifiers(s[cp..]) == SkipQualifiers(s[start..])
    {
      assert s[cp..][1..] == s[cp + 1..] && s[cp..][..1] == [s[cp]];
      cp := cp + 1;
    }
    if cp < |s| { assert s[cp..][..1][0] == s[cp]; }
  }

  /** The cursor stands behind the opening quote. */
  method Character(g: Env, s: string, start: nat) returns (cp: nat, val: int)
    requires start <= |s|
    ensures cp <= |s| && ParseCharacter(g, s[start..]) == Ok(s[cp..], val)
  {
    cp := SkipSpace(s, start);
    var at := cp;
    if cp < |s| && s[cp] == '\\' {
      var c := Peek(s, cp + 1);
      if IsEscape(c) || c == '\'' { val := EscapeValue(c); }
      else if c == 'x' { val := g.strtol(s[cp + 2..], 16); }
      else { val := g.strtol(s[cp + 1..], 8); }
    } else {
      val := Peek(s, cp) as int;
    }
    assert Peek(s[at..], 0) == Peek(s, at) && Peek(s[at..], 1) == Peek(s, at + 1);
    assert at + 2 <= |s| ==> s[at..][2..] == s[at + 2..];
    assert at + 1 <= |s| ==> s[at..][1..] == s[at + 1..];
    while cp < |s| && s[cp] != '\''
      invariant at <= cp <= |s| && ToQuote(s[cp..]) == ToQuote(s[at..])
    {
      assert s[cp..][1..] == s[cp + 1..];
      cp := cp + 1;
    }
  }
}
