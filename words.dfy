/**
 * The B language's single value type: a 64-bit machine word (LLVM `i64`).
 * A word is kept as its unsigned bit pattern; Signed reads it as two's
 * complement.
 */
module Words {

  const Modulus: int := 0x1_0000_0000_0000_0000
  const MinSigned: int := -0x8000_0000_0000_0000

  type Word = x: int | 0 <= x < 0x1_0000_0000_0000_0000

  /** The bit pattern of an integer, modulo 2^64. */
  function Wrap(i: int): Word {
    i % Modulus
  }

  /** The two's-complement value of a word. */
  function Signed(w: Word): (i: int)
    ensures MinSigned <= i < -MinSigned
    ensures Wrap(i) == w
  {
    if w < 0x8000_0000_0000_0000 then w else w - Modulus
  }

  /** Integer division truncating toward zero, as LLVM's `sdiv` and C do. */
  function TruncDiv(a: int, b: int): int
    requires b != 0
  {
    var q := Abs(a) / Abs(b);
    if (a < 0) == (b < 0) then q else -q
  }

  function Abs(i: int): nat {
    if i < 0 then -i else i
  }

  /** The truth values of a comparison, widened to a word. */
  function FromBool(b: bool): (w: Word)
    ensures w == 0 || w == 1
  {
    if b then 1 else 0
  }

  /** Adding a multiple of 2^64 does not change the bit pattern. */
  lemma WrapShift(i: int, k: int)
    ensures Wrap(i + k * Modulus) == Wrap(i)
  {
    var q, r := i / Modulus, i % Modulus;
    assert i + k * Modulus == (q + k) * Modulus + r;
  }

  /** A value that fits in the signed range reads back unchanged. */
  lemma SignedWrap(i: int)
    requires MinSigned <= i < -MinSigned
    ensures Signed(Wrap(i)) == i
  {
    if i < 0 {
      WrapShift(i, 1);
      assert Wrap(i) == i + Modulus;
    }
  }

  /** Two words with the same two's-complement value are the same word. */
  lemma SignedInjective(a: Word, b: Word)
    ensures Signed(a) == Signed(b) <==> a == b
  {
  }
}
