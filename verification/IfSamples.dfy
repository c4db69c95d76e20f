/** What some texts come out to: one for each operator, and one for each pair of neighbouring levels. */
module IfSamples {
  import opened IfExpressions
  import opened IfParsing
  import opened IfRoundTrip

  function Digit(c: char): Expr {
    if c == '0' then Num("", 8, "0", "", "") else Num("", 10, "", [c], "")
  }

  function Number(c: char): int {
    c as int - '0' as int
  }

  function Two(b: Bin, l: Expr, r: Expr): Expr {
    Binary(b, l, "", r)
  }

  lemma DigitIs(g: Env, c: char)
    requires IsDigit(c)
    ensures Good(Digit(c)) && Level(Digit(c)) == 0 && Show(Digit(c)) == [c] && Value(g, Digit(c)) == Number(c)
  {
    if c != '0' { assert [c][..0] == "" && Positional("", 10) == 0; }
  }

  /** A tree's text comes out to its value. */
  lemma Comes(g: Env, e: Expr)
    requires Good(e)
    ensures ParseIfExpression(g, Show(e)) == Ok("", Value(g, e))
  {
    RoundTrip(g, e);
  }

  /** An operator behind a digit. */
  lemma BehindDigit(g: Env, b: Bin, c: char, r: Expr)
    requires IsDigit(c) && Good(r) && Level(r) <= BinLevel(b)
    ensures var e := Two(b, Digit(c), r);
            && Good(e) && Level(e) == BinLevel(b) && Show(e) == [c] + BinText(b) + Show(r)
            && Value(g, e) == Apply(b, Number(c), Value(g, r))
  {
    hide *;
    DigitIs(g, c);
    TwoIs(g, b, Digit(c), r);
  }

  lemma TwoIs(g: Env, b: Bin, l: Expr, r: Expr)
    requires Good(l) && Good(r) && Level(l) == 0 && Level(r) <= BinLevel(b)
    ensures var e := Two(b, l, r);
            && Good(e) && Level(e) == BinLevel(b) && Show(e) == Show(l) + BinText(b) + Show(r)
            && Value(g, e) == Apply(b, Value(g, l), Value(g, r))
  {
    hide *;
    TwoIsGood(g, b, l, r);
    TwoShows(b, l, r);
  }

  lemma TwoIsGood(g: Env, b: Bin, l: Expr, r: Expr)
    requires Good(l) && Good(r)
    ensures var e := Two(b, l, r);
            Good(e) && Level(e) == BinLevel(b) && Value(g, e) == Apply(b, Value(g, l), Value(g, r))
  {
    hide Apply, BinLevel, Show;
  }

  lemma TwoShows(b: Bin, l: Expr, r: Expr)
    requires Level(l) == 0 && Level(r) <= BinLevel(b)
    ensures Show(Two(b, l, r)) == Show(l) + BinText(b) + Show(r)
  {
    hide *;
    TwoIsShown(b, l, r);
    AtLevel(l, BinLevel(b) - 1);
    AtLevel(r, BinLevel(b));
    assert Show(l) + "" + BinText(b) + Show(r) == Show(l) + BinText(b) + Show(r);
  }

  lemma TwoIsShown(b: Bin, l: Expr, r: Expr)
    ensures Show(Two(b, l, r)) == ShowAt(l, BinLevel(b) - 1) + "" + BinText(b) + ShowAt(r, BinLevel(b))
  {
    hide ShowAt, BinText, BinLevel;
  }

  lemma AtLevel(e: Expr, k: nat)
    requires Level(e) <= k
    ensures ShowAt(e, k) == Show(e)
  {
    hide Show, Level;
  }

  /** An operator between digits. */
  lemma TwoDigits(g: Env, b: Bin, c: char, d: char)
    requires IsDigit(c) && IsDigit(d)
    ensures var e := Two(b, Digit(c), Digit(d));
            Good(e) && Level(e) == BinLevel(b) && Show(e) == [c] + BinText(b) + [d] && Value(g, e) == Apply(b, Number(c), Number(d))
  {
    hide *;
    DigitIs(g, d);
    BehindDigit(g, b, c, Digit(d));
  }

  lemma Sample(g: Env, b: Bin, c: char, d: char, v: int)
    requires IsDigit(c) && IsDigit(d) && Apply(b, Number(c), Number(d)) == v
    ensures ParseIfExpression(g, [c] + BinText(b) + [d]) == Ok("", v)
  {
    hide *;
    TwoDigits(g, b, c, d);
    Comes(g, Two(b, Digit(c), Digit(d)));
  }

  /** The arithmetic operators, as C writes them. */
  lemma Arithmetic(g: Env)
    ensures ParseIfExpression(g, "7*2") == Ok("", 14)
    ensures ParseIfExpression(g, "7/2") == Ok("", 3)
    ensures ParseIfExpression(g, "7%2") == Ok("", 1)
    ensures ParseIfExpression(g, "7+2") == Ok("", 9)
    ensures ParseIfExpression(g, "7-2") == Ok("", 5)
    ensures ParseIfExpression(g, "7<<2") == Ok("", 28)
    ensures ParseIfExpression(g, "7>>2") == Ok("", 1)
  {
    hide *;
    ArithmeticOfMul(g);
    ArithmeticOfDiv(g);
    ArithmeticOfMod(g);
    ArithmeticOfAdd(g);
    ArithmeticOfSub(g);
    ArithmeticOfShl(g);
    ArithmeticOfShr(g);
  }

  lemma ArithmeticOfMul(g: Env)
    ensures ParseIfExpression(g, "7*2") == Ok("", 14)
  {
    hide ParseIfExpression;
    Sample(g, Mul, '7', '2', 14);
    assert ['7'] + BinText(Mul) + ['2'] == "7*2";
  }

  lemma ArithmeticOfDiv(g: Env)
    ensures ParseIfExpression(g, "7/2") == Ok("", 3)
  {
    hide ParseIfExpression;
    Sample(g, Div, '7', '2', 3);
    assert ['7'] + BinText(Div) + ['2'] == "7/2";
  }

  lemma ArithmeticOfMod(g: Env)
    ensures ParseIfExpression(g, "7%2") == Ok("", 1)
  {
    hide ParseIfExpression;
    Sample(g, Mod, '7', '2', 1);
    assert ['7'] + BinText(Mod) + ['2'] == "7%2";
  }

  lemma ArithmeticOfAdd(g: Env)
    ensures ParseIfExpression(g, "7+2") == Ok("", 9)
  {
    hide ParseIfExpression;
    Sample(g, Add, '7', '2', 9);
    assert ['7'] + BinText(Add) + ['2'] == "7+2";
  }

  lemma ArithmeticOfSub(g: Env)
    ensures ParseIfExpression(g, "7-2") == Ok("", 5)
  {
    hide ParseIfExpression;
    Sample(g, Sub, '7', '2', 5);
    assert ['7'] + BinText(Sub) + ['2'] == "7-2";
  }

  lemma ArithmeticOfShl(g: Env)
    ensures ParseIfExpression(g, "7<<2") == Ok("", 28)
  {
    assert Power2(0) == 1 && Power2(1) == 2;
    hide ParseIfExpression;
    Sample(g, Shl, '7', '2', 28);
    assert ['7'] + BinText(Shl) + ['2'] == "7<<2";
  }

  lemma ArithmeticOfShr(g: Env)
    ensures ParseIfExpression(g, "7>>2") == Ok("", 1)
  {
    assert Power2(0) == 1 && Power2(1) == 2;
    hide ParseIfExpression;
    Sample(g, Shr, '7', '2', 1);
    assert ['7'] + BinText(Shr) + ['2'] == "7>>2";
  }

  /** The comparisons and the logical operators. */
  lemma Comparison(g: Env)
    ensures ParseIfExpression(g, "7<2") == Ok("", 0)
    ensures ParseIfExpression(g, "7<=2") == Ok("", 0)
    ensures ParseIfExpression(g, "7>2") == Ok("", 1)
    ensures ParseIfExpression(g, "7>=2") == Ok("", 1)
    ensures ParseIfExpression(g, "7==2") == Ok("", 0)
    ensures ParseIfExpression(g, "7!=2") == Ok("", 1)
    ensures ParseIfExpression(g, "7&&2") == Ok("", 1)
    ensures ParseIfExpression(g, "7||2") == Ok("", 1)
  {
    hide *;
    ComparisonOfLt(g);
    ComparisonOfLe(g);
    ComparisonOfGt(g);
    ComparisonOfGe(g);
    ComparisonOfEq(g);
    ComparisonOfNe(g);
    ComparisonOfLAnd(g);
    ComparisonOfLOr(g);
  }

  lemma ComparisonOfLt(g: Env)
    ensures ParseIfExpression(g, "7<2") == Ok("", 0)
  {
    hide ParseIfExpression;
    Sample(g, Lt, '7', '2', 0);
    assert ['7'] + BinText(Lt) + ['2'] == "7<2";
  }

  lemma ComparisonOfLe(g: Env)
    ensures ParseIfExpression(g, "7<=2") == Ok("", 0)
  {
    hide ParseIfExpression;
    Sample(g, Le, '7', '2', 0);
    assert ['7'] + BinText(Le) + ['2'] == "7<=2";
  }

  lemma ComparisonOfGt(g: Env)
    ensures ParseIfExpression(g, "7>2") == Ok("", 1)
  {
    hide ParseIfExpression;
    Sample(g, Gt, '7', '2', 1);
    assert ['7'] + BinText(Gt) + ['2'] == "7>2";
  }

  lemma ComparisonOfGe(g: Env)
    ensures ParseIfExpression(g, "7>=2") == Ok("", 1)
  {
    hide ParseIfExpression;
    Sample(g, Ge, '7', '2', 1);
    assert ['7'] + BinText(Ge) + ['2'] == "7>=2";
  }

  lemma ComparisonOfEq(g: Env)
    ensures ParseIfExpression(g, "7==2") == Ok("", 0)
  {
    hide ParseIfExpression;
    Sample(g, Eq, '7', '2', 0);
    assert ['7'] + BinText(Eq) + ['2'] == "7==2";
  }

  lemma ComparisonOfNe(g: Env)
    ensures ParseIfExpression(g, "7!=2") == Ok("", 1)
  {
    hide ParseIfExpression;
    Sample(g, Ne, '7', '2', 1);
    assert ['7'] + BinText(Ne) + ['2'] == "7!=2";
  }

  lemma ComparisonOfLAnd(g: Env)
    ensures ParseIfExpression(g, "7&&2") == Ok("", 1)
  {
    hide ParseIfExpression;
    Sample(g, LAnd, '7', '2', 1);
    assert ['7'] + BinText(LAnd) + ['2'] == "7&&2";
  }

  lemma ComparisonOfLOr(g: Env)
    ensures ParseIfExpression(g, "7||2") == Ok("", 1)
  {
    hide ParseIfExpression;
    Sample(g, LOr, '7', '2', 1);
    assert ['7'] + BinText(LOr) + ['2'] == "7||2";
  }

  /** The operators on bits. */
  lemma OnBits(g: Env)
    ensures ParseIfExpression(g, "3&2") == Ok("", 2)
    ensures ParseIfExpression(g, "3^2") == Ok("", 1)
    ensures ParseIfExpression(g, "3|2") == Ok("", 3)
  {
    hide *;
    OnBitsOfBAnd(g);
    OnBitsOfBXor(g);
    OnBitsOfBOr(g);
  }

  lemma OnBitsOfBAnd(g: Env)
    ensures ParseIfExpression(g, "3&2") == Ok("", 2)
  {
    assert Apply(BAnd, 3, 2) == 2;
    hide ParseIfExpression;
    Sample(g, BAnd, '3', '2', 2);
    assert ['3'] + BinText(BAnd) + ['2'] == "3&2";
  }

  lemma OnBitsOfBXor(g: Env)
    ensures ParseIfExpression(g, "3^2") == Ok("", 1)
  {
    assert Apply(BXor, 3, 2) == 1;
    hide ParseIfExpression;
    Sample(g, BXor, '3', '2', 1);
    assert ['3'] + BinText(BXor) + ['2'] == "3^2";
  }

  lemma OnBitsOfBOr(g: Env)
    ensures ParseIfExpression(g, "3|2") == Ok("", 3)
  {
    assert Apply(BOr, 3, 2) == 3;
    hide ParseIfExpression;
    Sample(g, BOr, '3', '2', 3);
    assert ['3'] + BinText(BOr) + ['2'] == "3|2";
  }

  /** The operator that binds tighter stands on the right: it is applied first. */
  lemma SampleThree(g: Env, b: Bin, tight: Bin, c: char, d: char, k: char, v: int)
    requires IsDigit(c) && IsDigit(d) && IsDigit(k) && BinLevel(tight) < BinLevel(b)
    requires Apply(b, Number(c), Apply(tight, Number(d), Number(k))) == v
    ensures ParseIfExpression(g, [c] + BinText(b) + [d] + BinText(tight) + [k]) == Ok("", v)
  {
    ThreeDigits(g, b, tight, c, d, k);
    hide *;
    Comes(g, Two(b, Digit(c), Two(tight, Digit(d), Digit(k))));
  }

  lemma ThreeDigits(g: Env, b: Bin, tight: Bin, c: char, d: char, k: char)
    requires IsDigit(c) && IsDigit(d) && IsDigit(k) && BinLevel(tight) < BinLevel(b)
    ensures var e := Two(b, Digit(c), Two(tight, Digit(d), Digit(k)));
            && Good(e) && Value(g, e) == Apply(b, Number(c), Apply(tight, Number(d), Number(k)))
            && Show(e) == [c] + BinText(b) + [d] + BinText(tight) + [k]
  {
    hide *;
    TwoDigits(g, tight, d, k);
    BehindDigit(g, b, c, Two(tight, Digit(d), Digit(k)));
    assert [c] + BinText(b) + ([d] + BinText(tight) + [k]) == [c] + BinText(b) + [d] + BinText(tight) + [k];
  }

  /** C's precedence, level by level. */
  lemma Precedence(g: Env)
    ensures ParseIfExpression(g, "7-2*3") == Ok("", 1)
    ensures ParseIfExpression(g, "1<<2+1") == Ok("", 8)
    ensures ParseIfExpression(g, "1<1<<1") == Ok("", 1)
    ensures ParseIfExpression(g, "2==1<3") == Ok("", 0)
    ensures ParseIfExpression(g, "1&2==2") == Ok("", 1)
    ensures ParseIfExpression(g, "1^1&0") == Ok("", 1)
    ensures ParseIfExpression(g, "1|1^1") == Ok("", 1)
    ensures ParseIfExpression(g, "0&&0|1") == Ok("", 0)
    ensures ParseIfExpression(g, "1||1&&0") == Ok("", 1)
  {
    hide *;
    SubOverMul(g);
    ShlOverAdd(g);
    LtOverShl(g);
    EqOverLt(g);
    BAndOverEq(g);
    BXorOverBAnd(g);
    BOrOverBXor(g);
    LAndOverBOr(g);
    LOrOverLAnd(g);
  }

  lemma SubOverMul(g: Env)
    ensures ParseIfExpression(g, "7-2*3") == Ok("", 1)
  {
    assert Power2(0) == 1 && Power2(1) == 2 && Power2(2) == 4 && Power2(3) == 8;
    assert Apply(Mul, 2, 3) == 6 && Apply(Sub, 7, 6) == 1;
    hide ParseIfExpression, Apply;
    SampleThree(g, Sub, Mul, '7', '2', '3', 1);
    assert ['7'] + BinText(Sub) + ['2'] + BinText(Mul) + ['3'] == "7-2*3";
  }

  lemma ShlOverAdd(g: Env)
    ensures ParseIfExpression(g, "1<<2+1") == Ok("", 8)
  {
    assert Power2(0) == 1 && Power2(1) == 2 && Power2(2) == 4 && Power2(3) == 8;
    assert Apply(Add, 2, 1) == 3 && Apply(Shl, 1, 3) == 8;
    hide ParseIfExpression, Apply;
    SampleThree(g, Shl, Add, '1', '2', '1', 8);
    assert ['1'] + BinText(Shl) + ['2'] + BinText(Add) + ['1'] == "1<<2+1";
  }

  lemma LtOverShl(g: Env)
    ensures ParseIfExpression(g, "1<1<<1") == Ok("", 1)
  {
    assert Power2(0) == 1 && Power2(1) == 2 && Power2(2) == 4 && Power2(3) == 8;
    assert Apply(Shl, 1, 1) == 2 && Apply(Lt, 1, 2) == 1;
    hide ParseIfExpression, Apply;
    SampleThree(g, Lt, Shl, '1', '1', '1', 1);
    assert ['1'] + BinText(Lt) + ['1'] + BinText(Shl) + ['1'] == "1<1<<1";
  }

  lemma EqOverLt(g: Env)
    ensures ParseIfExpression(g, "2==1<3") == Ok("", 0)
  {
    assert Power2(0) == 1 && Power2(1) == 2 && Power2(2) == 4 && Power2(3) == 8;
    assert Apply(Lt, 1, 3) == 1 && Apply(Eq, 2, 1) == 0;
    hide ParseIfExpression, Apply;
    SampleThree(g, Eq, Lt, '2', '1', '3', 0);
    assert ['2'] + BinText(Eq) + ['1'] + BinText(Lt) + ['3'] == "2==1<3";
  }

  lemma BAndOverEq(g: Env)
    ensures ParseIfExpression(g, "1&2==2") == Ok("", 1)
  {
    assert Power2(0) == 1 && Power2(1) == 2 && Power2(2) == 4 && Power2(3) == 8;
    assert Apply(Eq, 2, 2) == 1 && Apply(BAnd, 1, 1) == 1;
    hide ParseIfExpression, Apply;
    SampleThree(g, BAnd, Eq, '1', '2', '2', 1);
    assert ['1'] + BinText(BAnd) + ['2'] + BinText(Eq) + ['2'] == "1&2==2";
  }

  lemma BXorOverBAnd(g: Env)
    ensures ParseIfExpression(g, "1^1&0") == Ok("", 1)
  {
    assert Power2(0) == 1 && Power2(1) == 2 && Power2(2) == 4 && Power2(3) == 8;
    assert Apply(BAnd, 1, 0) == 0 && Apply(BXor, 1, 0) == 1;
    hide ParseIfExpression, Apply;
    SampleThree(g, BXor, BAnd, '1', '1', '0', 1);
    assert ['1'] + BinText(BXor) + ['1'] + BinText(BAnd) + ['0'] == "1^1&0";
  }

  lemma BOrOverBXor(g: Env)
    ensures ParseIfExpression(g, "1|1^1") == Ok("", 1)
  {
    assert Power2(0) == 1 && Power2(1) == 2 && Power2(2) == 4 && Power2(3) == 8;
    assert Apply(BXor, 1, 1) == 0 && Apply(BOr, 1, 0) == 1;
    hide ParseIfExpression, Apply;
    SampleThree(g, BOr, BXor, '1', '1', '1', 1);
    assert ['1'] + BinText(BOr) + ['1'] + BinText(BXor) + ['1'] == "1|1^1";
  }

  lemma LAndOverBOr(g: Env)
    ensures ParseIfExpression(g, "0&&0|1") == Ok("", 0)
  {
    assert Power2(0) == 1 && Power2(1) == 2 && Power2(2) == 4 && Power2(3) == 8;
    assert Apply(BOr, 0, 1) == 1 && Apply(LAnd, 0, 1) == 0;
    hide ParseIfExpression, Apply;
    SampleThree(g, LAnd, BOr, '0', '0', '1', 0);
    assert ['0'] + BinText(LAnd) + ['0'] + BinText(BOr) + ['1'] == "0&&0|1";
  }

  lemma LOrOverLAnd(g: Env)
    ensures ParseIfExpression(g, "1||1&&0") == Ok("", 1)
  {
    assert Power2(0) == 1 && Power2(1) == 2 && Power2(2) == 4 && Power2(3) == 8;
    assert Apply(LAnd, 1, 0) == 0 && Apply(LOr, 1, 0) == 1;
    hide ParseIfExpression, Apply;
    SampleThree(g, LOr, LAnd, '1', '1', '0', 1);
    assert ['1'] + BinText(LOr) + ['1'] + BinText(LAnd) + ['0'] == "1||1&&0";
  }

  // ----- what stands alone -----

  /** Unary operators, parentheses, conditionals, literals, characters; a macro call counts as 1. */
  lemma Operands(g: Env)
    ensures ParseIfExpression(g, "-7") == Ok("", -7)
    ensures ParseIfExpression(g, "+7") == Ok("", 7)
    ensures ParseIfExpression(g, "!7") == Ok("", 0)
    ensures ParseIfExpression(g, "~7") == Ok("", -8)
    ensures ParseIfExpression(g, "(7)") == Ok("", 7)
    ensures ParseIfExpression(g, "1?2:3") == Ok("", 2)
    ensures ParseIfExpression(g, "0?2:3") == Ok("", 3)
    ensures ParseIfExpression(g, "0x1f") == Ok("", 31)
    ensures ParseIfExpression(g, "017") == Ok("", 15)
    ensures ParseIfExpression(g, "42UL") == Ok("", 42)
    ensures ParseIfExpression(g, "'a'") == Ok("", 97)
    ensures ParseIfExpression(g, "'\\n'") == Ok("", 10)
    ensures ParseIfExpression(g, "f(0)") == Ok("", 1)
  {
    hide *;
    NegativeReads(g);
    PositiveReads(g);
    NegationReads(g);
    ComplementReads(g);
    NestedReads(g);
    TakenReads(g);
    NotTakenReads(g);
    HexadecimalReads(g);
    OctalReads(g);
    DecimalReads(g);
    CharacterReads(g);
    EscapeReads(g);
    CalledReads(g);
  }

  lemma NegativeReads(g: Env)
    ensures ParseIfExpression(g, "-7") == Ok("", -7)
  {
    hide ParseIfExpression;
    var e := Unary("", Minus, Digit('7'));
    DigitIs(g, '7');
    assert Show(e) == "-7";
    assert Value(g, e) == -7;
    assert Good(e);
    Comes(g, e);
  }

  lemma PositiveReads(g: Env)
    ensures ParseIfExpression(g, "+7") == Ok("", 7)
  {
    hide ParseIfExpression;
    var e := Unary("", Un.Plus, Digit('7'));
    DigitIs(g, '7');
    assert Show(e) == "+7";
    assert Value(g, e) == 7;
    assert Good(e);
    Comes(g, e);
  }

  lemma NegationReads(g: Env)
    ensures ParseIfExpression(g, "!7") == Ok("", 0)
  {
    hide ParseIfExpression;
    var e := Unary("", Not, Digit('7'));
    DigitIs(g, '7');
    assert Show(e) == "!7";
    assert Value(g, e) == 0;
    assert Good(e);
    Comes(g, e);
  }

  lemma ComplementReads(g: Env)
    ensures ParseIfExpression(g, "~7") == Ok("", -8)
  {
    hide ParseIfExpression;
    var e := Unary("", Compl, Digit('7'));
    DigitIs(g, '7');
    assert Show(e) == "~7";
    assert Value(g, e) == -8;
    assert Good(e);
    Comes(g, e);
  }

  lemma NestedReads(g: Env)
    ensures ParseIfExpression(g, "(7)") == Ok("", 7)
  {
    hide ParseIfExpression;
    var e := Paren("", Digit('7'), "");
    DigitIs(g, '7');
    assert Show(e) == "(7)";
    assert Value(g, e) == 7;
    assert Good(e);
    Comes(g, e);
  }

  lemma TakenReads(g: Env)
    ensures ParseIfExpression(g, "1?2:3") == Ok("", 2)
  {
    hide ParseIfExpression;
    var e := Cond(Digit('1'), "", Digit('2'), "", Digit('3'));
    DigitIs(g, '1');
    DigitIs(g, '2');
    DigitIs(g, '3');
    assert Show(e) == "1?2:3";
    assert Value(g, e) == 2;
    assert Good(e);
    Comes(g, e);
  }

  lemma NotTakenReads(g: Env)
    ensures ParseIfExpression(g, "0?2:3") == Ok("", 3)
  {
    hide ParseIfExpression;
    var e := Cond(Digit('0'), "", Digit('2'), "", Digit('3'));
    DigitIs(g, '0');
    DigitIs(g, '2');
    DigitIs(g, '3');
    assert Show(e) == "0?2:3";
    assert Value(g, e) == 3;
    assert Good(e);
    Comes(g, e);
  }

  lemma HexadecimalReads(g: Env)
    ensures ParseIfExpression(g, "0x1f") == Ok("", 31)
  {
    hide ParseIfExpression;
    var e := Num("", 16, "0x", "1f", "");
    assert "1f"[..1] == "1" && "1"[..0] == "";
    assert Positional("1", 16) == 1;
    assert Show(e) == "0x1f";
    assert Value(g, e) == 31;
    assert Good(e);
    Comes(g, e);
  }

  lemma OctalReads(g: Env)
    ensures ParseIfExpression(g, "017") == Ok("", 15)
  {
    hide ParseIfExpression;
    var e := Num("", 8, "0", "17", "");
    assert "17"[..1] == "1" && "1"[..0] == "";
    assert Positional("1", 8) == 1;
    assert Show(e) == "017";
    assert Value(g, e) == 15;
    assert Good(e);
    Comes(g, e);
  }

  lemma DecimalReads(g: Env)
    ensures ParseIfExpression(g, "42UL") == Ok("", 42)
  {
    hide ParseIfExpression;
    var e := Num("", 10, "", "42", "UL");
    assert "42"[..1] == "4" && "4"[..0] == "";
    assert Positional("4", 10) == 4;
    assert Show(e) == "42UL";
    assert Value(g, e) == 42;
    assert Good(e);
    Comes(g, e);
  }

  lemma CharacterReads(g: Env)
    ensures ParseIfExpression(g, "'a'") == Ok("", 97)
  {
    hide ParseIfExpression;
    var e := Chr("", false, 'a');
    assert Show(e) == "'a'";
    assert Value(g, e) == 97;
    assert Good(e);
    Comes(g, e);
  }

  lemma EscapeReads(g: Env)
    ensures ParseIfExpression(g, "'\\n'") == Ok("", 10)
  {
    hide ParseIfExpression;
    var e := Chr("", true, 'n');
    assert Show(e) == "'\\n'";
    assert Value(g, e) == 10;
    assert Good(e);
    Comes(g, e);
  }

  lemma CalledReads(g: Env)
    ensures ParseIfExpression(g, "f(0)") == Ok("", 1)
  {
    hide ParseIfExpression;
    var e := Call("", "f", "", Final(Digit('0'), ""));
    DigitIs(g, '0');
    assert Show(e) == "f(0)";
    assert Value(g, e) == 1;
    assert Good(e);
    Comes(g, e);
  }
}
