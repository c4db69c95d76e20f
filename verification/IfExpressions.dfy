/** The expressions of #if directives: trees, their values, and how they are written. */
module IfExpressions {

  datatype Bin =
    | Mul | Div | Mod | Add | Sub | Shl | Shr | Lt | Le | Gt | Ge | Eq | Ne | BAnd | BXor | BOr | LAnd | LOr

  datatype Un = Not | Minus | Plus | Compl

  /** A tree, with the white space that is written in front of each of its tokens. */
  datatype Expr =
    | Num(gap: string, base: nat, pre: string, digits: string, post: string)
    | Chr(gap: string, escaped: bool, c: char)
    | Var(gap: string, name: string)
    | Defined(gap: string, inner: string, paren: bool, name: string, behind: string)
    | Call(gap: string, name: string, inner: string, args: Args)
    | Unary(gap: string, un: Un, arg: Expr)
    | Paren(gap: string, body: Expr, behind: string)
    | Binary(bin: Bin, left: Expr, space: string, right: Expr)
    | Cond(test: Expr, space: string, yes: Expr, mid: string, no: Expr)

  /** The arguments of a macro call, each with the space behind it. */
  datatype Args = Final(arg: Expr, behind: string) | More(arg: Expr, behind: string, rest: Args)

  /** The symbols, as makedepend knows them. */
  datatype Env = Env(defined: string -> int, variable: string -> int, strtol: (string, int) -> int)

  // ----- characters -----

  predicate IsSpace(c: char) {
    c == ' ' || c == '\t' || c == '\n' || c == '\r' || c == '\U{0B}' || c == '\U{0C}'
  }

  predicate IsDigit(c: char) {
    '0' <= c <= '9'
  }

  predicate IsAlpha(c: char) {
    'a' <= c <= 'z' || 'A' <= c <= 'Z'
  }

  predicate IsFirst(c: char) {
    IsAlpha(c) || c == '_'
  }

  predicate IsWord(c: char) {
    IsFirst(c) || IsDigit(c)
  }

  predicate AllSpace(s: string) {
    forall k | 0 <= k < |s| :: IsSpace(s[k])
  }

  predicate AllWord(s: string) {
    forall k | 0 <= k < |s| :: IsWord(s[k])
  }

  predicate IsName(s: string) {
    s != "" && IsFirst(s[0]) && AllWord(s)
  }

  // ----- precedence -----

  /** 1 binds tightest; a conditional expression is 11, and all that stands alone is 0. */
  function BinLevel(b: Bin): (k: nat)
    ensures 1 <= k <= 10
  {
    match b
    case Mul => 1 case Div => 1 case Mod => 1
    case Add => 2 case Sub => 2
    case Shl => 3 case Shr => 3
    case Lt => 4 case Le => 4 case Gt => 4 case Ge => 4
    case Eq => 5 case Ne => 5
    case BAnd => 6
    case BXor => 7
    case BOr => 8
    case LAnd => 9
    case LOr => 10
  }

  function Level(e: Expr): (k: nat)
    ensures k <= 11
  {
    if e.Binary? then BinLevel(e.bin) else if e.Cond? then 11 else 0
  }

  function BinText(b: Bin): string {
    match b
    case Mul => "*" case Div => "/" case Mod => "%"
    case Add => "+" case Sub => "-"
    case Shl => "<<" case Shr => ">>"
    case Lt => "<" case Le => "<=" case Gt => ">" case Ge => ">="
    case Eq => "==" case Ne => "!="
    case BAnd => "&"
    case BXor => "^"
    case BOr => "|"
    case LAnd => "&&"
    case LOr => "||"
  }

  function UnText(u: Un): char {
    match u
    case Not => '!' case Minus => '-' case Plus => '+' case Compl => '~'
  }

  // ----- what is written -----

  /** The text of a tree, with no more parentheses than it has of its own and the grammar needs. */
  function Show(e: Expr): string
    decreases e, 0
  {
    match e
    case Num(gap, base, pre, digits, post) => gap + pre + digits + post
    case Chr(gap, escaped, c) => gap + "'" + (if escaped then ['\\', c] else [c]) + "'"
    case Var(gap, name) => gap + name
    case Defined(gap, inner, paren, name, behind) =>
      gap + "defined" + inner + (if paren then "(" + name + behind + ")" else name)
    case Call(gap, name, inner, args) => gap + name + inner + "(" + ShowArgs(args)
    case Unary(gap, u, a) => gap + [UnText(u)] + ShowAt(a, 0)
    case Paren(gap, b, behind) => gap + "(" + ShowAt(b, 11) + behind + ")"
    case Binary(b, l, space, r) => ShowAt(l, BinLevel(b) - 1) + space + BinText(b) + ShowAt(r, BinLevel(b))
    case Cond(c, space, y, mid, n) => ShowAt(c, 10) + space + "?" + ShowAt(y, 11) + mid + ":" + ShowAt(n, 11)
  }

  /** Where the grammar wants an expression of this level. */
  function ShowAt(e: Expr, level: nat): string
    decreases e, 1
  {
    if Level(e) <= level then Show(e) else "(" + Show(e) + ")"
  }

  function ShowArgs(a: Args): string
    decreases a, 0
  {
    match a
    case Final(e, behind) => ShowAt(e, 11) + behind + ")"
    case More(e, behind, rest) => ShowAt(e, 11) + behind + "," + ShowArgs(rest)
  }

  // ----- what it means -----

  function Truth(b: bool): int {
    if b then 1 else 0
  }

  function Abs(x: int): nat {
    if x < 0 then -x else x
  }

  function Power2(n: nat): (p: nat)
    ensures p >= 1
  {
    if n == 0 then 1 else 2 * Power2(n - 1)
  }

  /** Bit by bit, on two's complement. */
  function Bits(f: (bool, bool) -> bool, a: int, b: int): int
    decreases Abs(a) + Abs(b)
  {
    if (a == 0 || a == -1) && (b == 0 || b == -1) then (if f(a == -1, b == -1) then -1 else 0)
    else 2 * Bits(f, a / 2, b / 2) + Truth(f(a % 2 == 1, b % 2 == 1))
  }

  const LONG_MAX := 0x7fff_ffff_ffff_ffff

  /** Division that rounds toward zero. */
  function Quotient(a: int, b: int): int
    requires b != 0
  {
    if (a < 0) == (b < 0) then Abs(a) / Abs(b) else -(Abs(a) / Abs(b))
  }

  /** The operators on integers that do not overflow. */
  function Apply(b: Bin, x: int, y: int): int {
    match b
    case Mul => x * y
    case Div => if y != 0 then Quotient(x, y) else LONG_MAX
    case Mod => if y != 0 then x - y * Quotient(x, y) else 0
    case Add => x + y
    case Sub => x - y
    case Shl => if y >= 0 then x * Power2(y) else 0
    case Shr => if y >= 0 then x / Power2(y) else 0
    case Lt => Truth(x < y)
    case Le => Truth(x <= y)
    case Gt => Truth(x > y)
    case Ge => Truth(x >= y)
    case Eq => Truth(x == y)
    case Ne => Truth(x != y)
    case BAnd => Bits((p, q) => p && q, x, y)
    case BXor => Bits((p, q) => p != q, x, y)
    case BOr => Bits((p, q) => p || q, x, y)
    case LAnd => Truth(x != 0 && y != 0)
    case LOr => Truth(x != 0 || y != 0)
  }

  function ApplyUn(u: Un, x: int): int {
    match u
    case Not => Truth(x == 0)
    case Minus => -x
    case Plus => x
    case Compl => -x - 1
  }

  // ----- literals -----

  function DigitOf(c: char): int {
    if '0' <= c <= '9' then c as int - '0' as int
    else if 'A' <= c <= 'F' then c as int - 'A' as int + 10
    else if 'a' <= c <= 'f' then c as int - 'a' as int + 10
    else 99
  }

  predicate AllDigits(s: string, base: nat) {
    forall k | 0 <= k < |s| :: DigitOf(s[k]) < base
  }

  predicate AllQualifiers(s: string) {
    forall k | 0 <= k < |s| :: s[k] == 'U' || s[k] == 'u' || s[k] == 'L' || s[k] == 'l'
  }

  /** A number in positional notation. */
  function Positional(s: string, base: nat): int {
    if s == "" then 0 else Positional(s[..|s| - 1], base) * base + DigitOf(s[|s| - 1])
  }

  /** A decimal, octal or hexadecimal literal: prefix, digits, qualifiers. */
  predicate IsLiteral(base: nat, pre: string, digits: string, post: string) {
    && AllDigits(digits, base) && AllQualifiers(post)
    && ((base == 10 && pre == "" && digits != "" && digits[0] != '0')
        || (base == 8 && pre == "0") || (base == 16 && (pre == "0x" || pre == "0X")))
  }

  /** The simple escape sequences, but for the quote. */
  predicate IsEscape(c: char) {
    c in "ntvbrfa\\?\""
  }

  function EscapeValue(c: char): int {
    match c
    case 'n' => 10 case 't' => 9 case 'v' => 11 case 'b' => 8 case 'r' => 13 case 'f' => 12 case 'a' => 7
    case _ => c as int
  }

  // ----- trees that can be written down -----

  /** A variable whose name does not read as `defined` followed by something else. */
  predicate NotDefined(name: string) {
    !("defined" <= name && (|name| == 7 || name[7] == '_'))
  }

  predicate Good(e: Expr)
    decreases e
  {
    match e
    case Num(gap, base, pre, digits, post) => AllSpace(gap) && IsLiteral(base, pre, digits, post)
    case Chr(gap, escaped, c) =>
      AllSpace(gap) && (if escaped then IsEscape(c) else !IsSpace(c) && c != '\'' && c != '\\')
    case Var(gap, name) => AllSpace(gap) && IsName(name) && NotDefined(name)
    case Defined(gap, inner, paren, name, behind) =>
      AllSpace(gap) && AllSpace(inner) && AllSpace(behind) && IsName(name) && (paren || inner != "")
    case Call(gap, name, inner, args) => AllSpace(gap) && AllSpace(inner) && IsName(name) && NotDefined(name) && GoodArgs(args)
    case Unary(gap, u, a) => AllSpace(gap) && Good(a)
    case Paren(gap, b, behind) => AllSpace(gap) && AllSpace(behind) && Good(b)
    case Binary(b, l, space, r) => AllSpace(space) && Good(l) && Good(r)
    case Cond(c, space, y, mid, n) => AllSpace(space) && AllSpace(mid) && Good(c) && Good(y) && Good(n)
  }

  predicate GoodArgs(a: Args)
    decreases a
  {
    match a
    case Final(e, behind) => AllSpace(behind) && Good(e)
    case More(e, behind, rest) => AllSpace(behind) && Good(e) && GoodArgs(rest)
  }

  /** The value of a tree: C's operators; a macro call counts as 1. */
  function Value(g: Env, e: Expr): int
    decreases e
  {
    match e
    case Num(gap, base, pre, digits, post) => Positional(digits, base)
    case Chr(gap, escaped, c) => if escaped then EscapeValue(c) else c as int
    case Var(gap, name) => g.variable(name)
    case Defined(gap, inner, paren, name, behind) => g.defined(name)
    case Call(gap, name, inner, args) => 1
    case Unary(gap, u, a) => ApplyUn(u, Value(g, a))
    case Paren(gap, b, behind) => Value(g, b)
    case Binary(b, l, space, r) => Apply(b, Value(g, l), Value(g, r))
    case Cond(c, space, y, mid, n) => if Value(g, c) != 0 then Value(g, y) else Value(g, n)
  }
}
