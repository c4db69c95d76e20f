/** An `unsigned` of the machine, as its bits, least significant first, and the operators that
    the small representation of a state set uses. */
module Words {

  /** CHAR_BIT*sizeof(unsigned). */
  const WORD_BITS := 32

  type Word = w: seq<bool> | |w| == WORD_BITS witness seq(WORD_BITS, _ => false)

  const Zero: Word := seq(WORD_BITS, _ => false)

  /** `(unsigned)1 << n`. */
  function OneShifted(n: nat): Word {
    seq(WORD_BITS, i => i == n)
  }

  function And(a: Word, b: Word): Word {
    seq(WORD_BITS, i requires 0 <= i < WORD_BITS => a[i] && b[i])
  }

  function Ior(a: Word, b: Word): Word {
    seq(WORD_BITS, i requires 0 <= i < WORD_BITS => a[i] || b[i])
  }

  function ShiftLeft(a: Word, n: nat): Word {
    seq(WORD_BITS, i requires 0 <= i < WORD_BITS => i >= n && a[i - n])
  }

  function ShiftRight(a: Word, n: nat): Word {
    seq(WORD_BITS, i requires 0 <= i < WORD_BITS => i + n < WORD_BITS && a[i + n])
  }

  /** `v & m`, used as a condition. */
  predicate Test(v: Word, m: Word) {
    exists i | 0 <= i < WORD_BITS :: And(v, m)[i]
  }

  /** The places of the bits that are on. */
  function Bits(w: Word): set<int> {
    set n | 0 <= n < WORD_BITS && w[n]
  }

  // ----- the macros of the small representation -----

  /** FWD and BACK. */
  function FwdWord(dst: Word, src: Word, here: Word, n: nat): Word {
    Ior(dst, ShiftLeft(And(src, here), n))
  }

  function BackWord(dst: Word, src: Word, here: Word, n: nat): Word {
    Ior(dst, ShiftRight(And(src, here), n))
  }

  lemma BitsSet1(w: Word, m: nat)
    requires m < WORD_BITS
    ensures Bits(Ior(w, OneShifted(m))) == Bits(w) + {m}
  {
  }

  lemma BitsTest(w: Word, m: nat)
    requires m < WORD_BITS
    ensures Test(w, OneShifted(m)) <==> m in Bits(w)
  {
    assert And(w, OneShifted(m))[m] == w[m];
  }

  lemma ShiftOne(p: nat, n: nat)
    ensures p + n < WORD_BITS ==> ShiftLeft(OneShifted(p), n) == OneShifted(p + n)
    ensures n <= p < WORD_BITS ==> ShiftRight(OneShifted(p), n) == OneShifted(p - n)
  {
  }

  lemma BitsFwd(dst: Word, src: Word, p: nat, n: nat)
    requires p + n < WORD_BITS
    ensures Bits(FwdWord(dst, src, OneShifted(p), n)) == Bits(dst) + if p in Bits(src) then {p + n} else {}
  {
    var r := FwdWord(dst, src, OneShifted(p), n);
    forall i | 0 <= i < WORD_BITS ensures r[i] == (dst[i] || (i == p + n && src[p])) {
      if i >= n { assert And(src, OneShifted(p))[i - n] == (src[i - n] && i - n == p); }
    }
  }

  lemma BitsBack(dst: Word, src: Word, p: nat, n: nat)
    requires n <= p < WORD_BITS
    ensures Bits(BackWord(dst, src, OneShifted(p), n)) == Bits(dst) + if p in Bits(src) then {p - n} else {}
  {
    var r := BackWord(dst, src, OneShifted(p), n);
    forall i | 0 <= i < WORD_BITS ensures r[i] == (dst[i] || (i == p - n && src[p])) {
      if i + n < WORD_BITS { assert And(src, OneShifted(p))[i + n] == (src[i + n] && i + n == p); }
    }
  }

  lemma SameBits(a: Word, b: Word)
    requires Bits(a) == Bits(b)
    ensures a == b
  {
    forall i | 0 <= i < WORD_BITS ensures a[i] == b[i] {
      assert i in Bits(a) <==> i in Bits(b);
    }
  }
}
