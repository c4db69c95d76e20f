/** The two representations of a set of states: a machine word for short strips and one byte a
    state for long ones.  The engine's text is written once, in terms of the operations here;
    `large` says which of the two compilations of it runs. */
module StateVectors {
  import opened Words

  /** A position in the strip while scanning: a mask in the small representation, an index in
      the large one. */
  datatype OneState = InWord(mask: Word) | InBytes(index: int)

  /** INIT. */
  function Init(large: bool, n: nat): OneState {
    if large then InBytes(n) else InWord(OneShifted(n))
  }

  /** INC. */
  function Inc(here: OneState): OneState {
    match here
    case InWord(m) => InWord(ShiftLeft(m, 1))
    case InBytes(i) => InBytes(i + 1)
  }

  class States {
    const large: bool
    const nstates: nat
    var word: Word
    const bytes: array<bool>

    /** SETUP and CLEAR. */
    constructor (large: bool, nstates: nat)
      requires !large ==> nstates <= WORD_BITS
      ensures Valid() && fresh(bytes)
      ensures this.large == large && this.nstates == nstates && Elems() == {}
    {
      this.large := large;
      this.nstates := nstates;
      word := Zero;
      bytes := new bool[if large then nstates else 0](_ => false);
      new;
    }

    ghost predicate Valid()
      reads this
    {
      if large then bytes.Length == nstates
      else nstates <= WORD_BITS && bytes.Length == 0 && forall n | n in Bits(word) :: n < nstates
    }

    /** The states in the set. */
    ghost function Elems(): set<int>
      reads this, bytes
    {
      if large then set n | 0 <= n < bytes.Length && bytes[n] else Bits(word)
    }

    /** Two vectors of one match: the same representation, and no memory in common. */
    ghost predicate Beside(that: States) {
      large == that.large && nstates == that.nstates && (this == that || bytes != that.bytes)
    }

    method Clear()
      requires Valid()
      modifies this, bytes
      ensures Valid() && Elems() == {}
    {
      if large {
        forall i | 0 <= i < bytes.Length { bytes[i] := false; }
      } else {
        word := Zero;
        }
    }

    method Set1(n: nat)
      requires Valid() && n < nstates
      modifies this, bytes
      ensures Valid() && Elems() == old(Elems()) + {n}
    {
      if large {
        bytes[n] := true;
      } else {
        BitsSet1(word, n);
        word := Ior(word, OneShifted(n));
      }
    }

    method IsSet(n: nat) returns (b: bool)
      requires Valid() && n < nstates
      ensures b <==> n in Elems()
    {
      if large { b := bytes[n]; } else { b := Test(word, OneShifted(n)); BitsTest(word, n); }
    }

    /** ASSIGN. */
    method Assign(src: States)
      requires Valid() && src.Valid() && Beside(src)
      modifies this, bytes
      ensures Valid() && Elems() == old(src.Elems())
    {
      if large {
        forall i | 0 <= i < bytes.Length { bytes[i] := src.bytes[i]; }
      } else {
        word := src.word;
      }
    }

    /** EQ. */
    method Eq(that: States) returns (b: bool)
      requires Valid() && that.Valid() && Beside(that)
      ensures b <==> Elems() == that.Elems()
    {
      if large {
        b := bytes[..] == that.bytes[..];
        if Elems() == that.Elems() {
          forall i | 0 <= i < nstates ensures bytes[i] == that.bytes[i] {
            assert i in Elems() <==> i in that.Elems();
          }
        }
      } else {
        b := word == that.word;
        if Elems() == that.Elems() { SameBits(word, that.word); }
      }
    }

    /** ISSTATEIN. */
    method IsStateIn(here: OneState, ghost pc: nat) returns (b: bool)
      requires Valid() && pc < nstates && here == Init(large, pc)
      ensures b <==> pc in Elems()
    {
      if large { b := bytes[here.index]; } else { b := Test(word, here.mask); BitsTest(word, pc); }
    }

    /** ISSETBACK. */
    method IsSetBack(here: OneState, n: nat, ghost pc: nat) returns (b: bool)
      requires Valid() && n <= pc < nstates && here == Init(large, pc)
      ensures b <==> pc - n in Elems()
    {
      if large {
        b := bytes[here.index - n];
      } else {
        ShiftOne(pc, n);
        BitsTest(word, pc - n);
        b := Test(word, ShiftRight(here.mask, n));
      }
    }

    /** FWD: if `src` is here, this can also be n further on. */
    method Fwd(src: States, here: OneState, n: nat, ghost pc: nat)
      requires Valid() && src.Valid() && Beside(src)
      requires pc + n < nstates && here == Init(large, pc)
      modifies this, bytes
      ensures Valid()
      ensures Elems() == old(Elems()) + (if pc in old(src.Elems()) then {pc + n} else {})
    {
      if large {
        bytes[here.index + n] := bytes[here.index + n] || src.bytes[here.index];
      } else {
        BitsFwd(word, src.word, pc, n);
        word := FwdWord(word, src.word, here.mask, n);
      }
    }

    /** BACK: if `src` is here, this can also be n further back. */
    method Back(src: States, here: OneState, n: nat, ghost pc: nat)
      requires Valid() && src.Valid() && Beside(src)
      requires n <= pc < nstates && here == Init(large, pc)
      modifies this, bytes
      ensures Valid()
      ensures Elems() == old(Elems()) + (if pc in old(src.Elems()) then {pc - n} else {})
    {
      if large {
        bytes[here.index - n] := bytes[here.index - n] || src.bytes[here.index];
      } else {
        BitsBack(word, src.word, pc, n);
        word := BackWord(word, src.word, here.mask, n);
      }
    }
  }

  /** INC of the position of pc is the position of pc + 1. */
  lemma IncInit(large: bool, pc: nat)
    requires !large ==> pc + 1 < WORD_BITS
    ensures Inc(Init(large, pc)) == Init(large, pc + 1)
  {
    ShiftOne(pc, 1);
  }
}
