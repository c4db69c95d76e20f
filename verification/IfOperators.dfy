/** What the operators, digits and characters of #if expressions amount to. */
module IfOperators {
  import opened IfExpressions

  // ----- bits -----

  /** The bit of weight 2^k, in two's complement. */
  predicate Bit(n: int, k: nat) {
    (n / Power2(k)) % 2 == 1
  }

  lemma Divides(n: int, d: int, q: int, r: int)
    requires d > 0 && n == d * q + r && 0 <= r < d
    ensures n / d == q && n % d == r
  {
    var p, s := n / d, n % d;
    assert n == d * p + s;
    Apart(d, p - q, r - s);
  }

  /** Multiples are no nearer than the number. */
  lemma Apart(d: int, k: int, m: int)
    requires d > 0 && d * k == m && -d < m < d
    ensures k == 0
  {
    if k >= 1 { AtLeast(d, k); }
    if k <= -1 {
      assert d * -k == -(d * k);
      AtLeast(d, -k);
    }
  }

  lemma {:induction false} AtLeast(d: int, k: int)
    requires d > 0 && k >= 1
    ensures d * k >= d
    decreases k
  {
    if k > 1 {
      AtLeast(d, k - 1);
      assert d * k == d * (k - 1) + d;
    }
  }

  lemma HalfThenRest(n: int, p: nat)
    requires p >= 1
    ensures n / (2 * p) == (n / 2) / p
  {
    var h := n / 2;
    var q, r := h / p, h % p;
    assert n == 2 * (p * q + r) + n % 2;
    assert 2 * (p * q) == (2 * p) * q;
    Divides(n, 2 * p, q, 2 * r + n % 2);
  }

  /** The bits of n are its lowest bit and those of its half. */
  lemma BitOfHalf(n: int, k: nat)
    ensures Bit(n, 0) <==> n % 2 == 1
    ensures Bit(n, k + 1) <==> Bit(n / 2, k)
  {
    HalfThenRest(n, Power2(k));
  }

  lemma AllOrNothing(k: nat)
    ensures !Bit(0, k) && Bit(-1, k)
  {
    Divides(-1, Power2(k), -1, Power2(k) - 1);
  }

  /** Every bit of the result is that of the operands' bits. */
  lemma {:induction false} BitsBitwise(f: (bool, bool) -> bool, a: int, b: int, k: nat)
    ensures Bit(Bits(f, a, b), k) <==> f(Bit(a, k), Bit(b, k))
    decreases Abs(a) + Abs(b), k
  {
    if (a == 0 || a == -1) && (b == 0 || b == -1) {
      AllOrNothing(k);
    } else {
      var c := Bits(f, a / 2, b / 2);
      var n := Bits(f, a, b);
      assert n / 2 == c && n % 2 == Truth(f(a % 2 == 1, b % 2 == 1));
      if k == 0 {
        BitOfHalf(n, 0);
        BitOfHalf(a, 0);
        BitOfHalf(b, 0);
      } else {
        BitsBitwise(f, a / 2, b / 2, k - 1);
        BitOfHalf(n, k - 1);
        BitOfHalf(a, k - 1);
        BitOfHalf(b, k - 1);
      }
    }
  }

  /** The operators on bits. */
  lemma BitOperators(x: int, y: int, k: nat)
    ensures Bit(Apply(BAnd, x, y), k) <==> Bit(x, k) && Bit(y, k)
    ensures Bit(Apply(BOr, x, y), k) <==> Bit(x, k) || Bit(y, k)
    ensures Bit(Apply(BXor, x, y), k) <==> (Bit(x, k) != Bit(y, k))
    ensures Bit(ApplyUn(Compl, x), k) <==> !Bit(x, k)
  {
    BitsBitwise((p, q) => p && q, x, y, k);
    BitsBitwise((p, q) => p || q, x, y, k);
    BitsBitwise((p, q) => p != q, x, y, k);
    hide Bit, Bits;
    ComplementBits(x, k);
  }

  lemma ComplementBits(x: int, k: nat)
    ensures Bit(-x - 1, k) <==> !Bit(x, k)
  {
    var p: nat := Power2(k);
    var q, r := x / p, x % p;
    assert -x - 1 == p * (-q - 1) + (p - 1 - r);
    Divides(-x - 1, p, -q - 1, p - 1 - r);
  }

  // ----- arithmetic -----

  /** Counting, adding up, and what undoes them. */
  lemma SumsAndProducts(x: int, y: int)
    ensures Apply(Add, x, 0) == x && Apply(Add, x, y + 1) == Apply(Add, x, y) + 1
    ensures Apply(Add, Apply(Sub, x, y), y) == x && Apply(Add, x, ApplyUn(Minus, x)) == 0 && ApplyUn(Plus, x) == x
    ensures Apply(Mul, x, 0) == 0 && Apply(Mul, x, y + 1) == Apply(Add, Apply(Mul, x, y), x)
  {
  }

  lemma AbsQuotient(x: int, y: int)
    requires y != 0
    ensures Abs(x) == Abs(y) * (Abs(x) / Abs(y)) + Abs(x) % Abs(y)
    ensures 0 <= Abs(x) % Abs(y) < Abs(y) && Abs(x) / Abs(y) >= 0
  {
  }

  /** Division leaves a remainder that is smaller than the divisor and has the sign of the dividend: it
      rounds toward zero. */
  lemma DivisionTruncates(x: int, y: int)
    requires y != 0
    ensures x == y * Apply(Div, x, y) + Apply(Mod, x, y)
    ensures Abs(Apply(Mod, x, y)) < Abs(y)
    ensures (x >= 0 ==> Apply(Mod, x, y) >= 0) && (x <= 0 ==> Apply(Mod, x, y) <= 0)
    ensures Abs(y * Apply(Div, x, y)) <= Abs(x)
  {
    AbsQuotient(x, y);
    var q, r := Abs(x) / Abs(y), Abs(x) % Abs(y);
    assert y * Quotient(x, y) == if x < 0 then -(Abs(y) * q) else Abs(y) * q by { SignedProduct(x, y, q); }
    assert 0 <= Abs(y) * q;
  }

  /** By zero it yields the greatest long integer, of 64 bits. */
  lemma DivisionByZero(x: int)
    ensures Apply(Div, x, 0) == Power2(63) - 1
  {
    EightMore(0);
    EightMore(8);
    EightMore(16);
    EightMore(24);
    EightMore(32);
    EightMore(40);
    EightMore(48);
    assert Power2(56) == 0x100_0000_0000_0000;
    hide Power2;
    SevenMore();
  }

  lemma EightMore(n: nat)
    ensures Power2(n + 8) == 256 * Power2(n) && Power2(0) == 1
  {
    assert Power2(n + 8) == 2 * Power2(n + 7) && Power2(n + 7) == 2 * Power2(n + 6) && Power2(n + 6) == 2 * Power2(n + 5);
    assert Power2(n + 5) == 2 * Power2(n + 4) && Power2(n + 4) == 2 * Power2(n + 3) && Power2(n + 3) == 2 * Power2(n + 2);
    assert Power2(n + 2) == 2 * Power2(n + 1) && Power2(n + 1) == 2 * Power2(n);
  }

  lemma SevenMore()
    requires Power2(56) == 0x100_0000_0000_0000
    ensures Power2(63) == 0x8000_0000_0000_0000
  {
    assert Power2(57) == 2 * Power2(56) && Power2(58) == 2 * Power2(57) && Power2(59) == 2 * Power2(58);
    assert Power2(60) == 2 * Power2(59) && Power2(61) == 2 * Power2(60) && Power2(62) == 2 * Power2(61);
  }

  lemma SignedProduct(x: int, y: int, q: nat)
    requires y != 0 && q == Abs(x) / Abs(y)
    ensures y * Quotient(x, y) == if x < 0 then -(Abs(y) * q) else Abs(y) * q
  {
    var m: int := q;
    assert y * (-m) == -(y * m);
    assert (-y) * m == -(y * m);
  }

  /** A shift is as many doublings, or halvings that round down; one undoes the other. */
  lemma {:induction false} Shifts(x: int, y: int)
    requires y >= 0
    ensures Apply(Shl, x, 0) == x && Apply(Shl, x, y + 1) == 2 * Apply(Shl, x, y)
    ensures Apply(Shr, x, 0) == x && Apply(Shr, x, y + 1) == Apply(Shr, x, y) / 2
    ensures Apply(Shr, Apply(Shl, x, y), y) == x
  {
    var p := Power2(y);
    assert x * (2 * p) == 2 * (x * p);
    assert (x * p) == p * x + 0;
    Divides(x * p, p, x, 0);
    RestThenHalf(x, p);
  }

  lemma RestThenHalf(n: int, p: nat)
    requires p >= 1
    ensures n / (2 * p) == (n / p) / 2
  {
    var h := n / p;
    var q, r := h / 2, h % 2;
    assert n == p * (2 * q + r) + n % p;
    assert p * (2 * q + r) == (2 * p) * q + p * r;
    assert p * r == if r == 1 then p else 0;
    Divides(n, 2 * p, q, p * r + n % p);
  }

  // ----- truth -----

  /** Less is: so much less.  Exactly one of less, equal and greater holds, and the others are their
      complements. */
  lemma Comparisons(x: int, y: int)
    ensures Apply(Lt, x, y) == 1 <==> exists d: nat :: d > 0 && Apply(Add, x, d) == y
    ensures Apply(Gt, x, y) == Apply(Lt, y, x)
    ensures Apply(Lt, x, y) + Apply(Eq, x, y) + Apply(Gt, x, y) == 1
    ensures 0 <= Apply(Lt, x, y) <= 1 && 0 <= Apply(Eq, x, y) <= 1
    ensures Apply(Ge, x, y) == 1 - Apply(Lt, x, y)
    ensures Apply(Le, x, y) == 1 - Apply(Gt, x, y)
    ensures Apply(Ne, x, y) == 1 - Apply(Eq, x, y)
    ensures Apply(Eq, x, x) == 1
  {
    if x < y {
      var d: nat := y - x;
      assert d > 0 && Apply(Add, x, d) == y;
    }
  }

  /** The logical operators yield 0 or 1 and depend on truth only. */
  lemma Connectives(x: int, y: int)
    ensures Apply(LAnd, x, y) == if x != 0 then (if y != 0 then 1 else 0) else 0
    ensures Apply(LOr, x, y) == if x != 0 then 1 else if y != 0 then 1 else 0
    ensures ApplyUn(Not, x) == if x != 0 then 0 else 1
    ensures Apply(LOr, x, y) == ApplyUn(Not, Apply(LAnd, ApplyUn(Not, x), ApplyUn(Not, y)))
  {
  }

  // ----- characters and digits -----

  const Lower := "abcdefghijklmnopqrstuvwxyz"
  const Upper := "ABCDEFGHIJKLMNOPQRSTUVWXYZ"

  /** Names are of letters, digits and underscores, and begin with no digit. */
  lemma NameCharacters(c: char)
    ensures IsFirst(c) <==> c in Lower || c in Upper || c == '_'
    ensures IsWord(c) <==> IsFirst(c) || c in "0123456789"
    ensures IsSpace(c) <==> c in " \t\n\r\U{0B}\U{0C}"
  {
    LowerLetters(c);
    UpperLetters(c);
    DigitCharacters(c);
  }

  lemma LowerLetters(c: char)
    ensures c in Lower <==> 'a' <= c <= 'z'
  {
    if 'a' <= c <= 'z' { assert Lower[c as int - 'a' as int] == c; }
  }

  lemma UpperLetters(c: char)
    ensures c in Upper <==> 'A' <= c <= 'Z'
  {
    if 'A' <= c <= 'Z' { assert Upper[c as int - 'A' as int] == c; }
  }

  lemma DigitCharacters(c: char)
    ensures c in "0123456789" <==> '0' <= c <= '9'
  {
    if '0' <= c <= '9' { assert "0123456789"[c as int - '0' as int] == c; }
  }

  /** The digits, by their values. */
  function DigitChar(k: nat): char
    requires k < 16
  {
    "0123456789abcdef"[k]
  }

  lemma DigitValues(k: nat, c: char)
    requires k < 16
    ensures DigitOf(DigitChar(k)) == k && DigitOf("0123456789ABCDEF"[k]) == k
    ensures c !in "0123456789abcdef" && c !in "0123456789ABCDEF" ==> DigitOf(c) >= 16
  {
    if '0' <= c <= '9' { assert "0123456789abcdef"[c as int - '0' as int] == c; }
    if 'a' <= c <= 'f' { assert "0123456789abcdef"[c as int - 'a' as int + 10] == c; }
    if 'A' <= c <= 'F' { assert "0123456789ABCDEF"[c as int - 'A' as int + 10] == c; }
  }

  /** A number in some base. */
  function Numeral(n: nat, base: nat): string
    requires 2 <= base <= 16
  {
    if n == 0 then "" else Numeral(n / base, base) + [DigitChar(n % base)]
  }

  /** What is written is read: the value of a numeral is its number. */
  lemma {:induction false} NumeralReads(n: nat, base: nat)
    requires 2 <= base <= 16
    ensures AllDigits(Numeral(n, base), base) && Positional(Numeral(n, base), base) == n
    decreases n
  {
    if n > 0 {
      hide *;
      LastDigit(n, base);
      var s, c := Numeral(n / base, base), DigitChar(n % base);
      NumeralReads(n / base, base);
      DigitValues(n % base, c);
      OneMoreDigit(s, c, base);
    } else {
      assert Numeral(n, base) == "";
    }
  }

  lemma LastDigit(n: nat, base: nat)
    requires 2 <= base <= 16 && n > 0
    ensures 0 <= n / base < n && 0 <= n % base < base && (n / base) * base + n % base == n
    ensures Numeral(n, base) == Numeral(n / base, base) + [DigitChar(n % base)]
  {
    hide DigitChar;
  }

  lemma OneMoreDigit(s: string, c: char, base: nat)
    requires AllDigits(s, base) && DigitOf(c) < base
    ensures AllDigits(s + [c], base) && Positional(s + [c], base) == Positional(s, base) * base + DigitOf(c)
  {
    hide DigitOf;
    assert (s + [c])[..|s|] == s;
  }

  /** The simple escapes stand for the characters that they name. */
  lemma EscapesAreCharacters()
    ensures EscapeValue('n') == '\n' as int && EscapeValue('t') == '\t' as int && EscapeValue('r') == '\r' as int
    ensures EscapeValue('v') == '\U{0B}' as int && EscapeValue('f') == '\U{0C}' as int
    ensures EscapeValue('b') == '\U{08}' as int && EscapeValue('a') == '\U{07}' as int
    ensures EscapeValue('\\') == '\\' as int && EscapeValue('\'') == '\'' as int && EscapeValue('\"') == '\"' as int
    ensures EscapeValue('?') == '?' as int
  {
  }
}
