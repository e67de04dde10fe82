/** 64-bit words, and timestamps as such words. */
module Words {

  const TWO63: int := 0x8000_0000_0000_0000
  const TWO64: int := 0x1_0000_0000_0000_0000

  type Word = u: int | 0 <= u < TWO64

  /** An unsigned word read as a signed one. */
  function Signed(u: Word): (i: int)
    ensures -TWO63 <= i < TWO63
  { if u < TWO63 then u else u - TWO64 }

  /** The unsigned word of an integer. */
  function Unsigned(i: int): Word { i % TWO64 }

  lemma SignedBack(u: Word)
    ensures Unsigned(Signed(u)) == u
  {}
}
