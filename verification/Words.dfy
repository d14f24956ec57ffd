/** 64-bit words as sets of bit positions. */
module Words {
  /** A 64-bit word, as the set of the positions of its one bits. */
  type Word = w: set<nat> | forall z :: z in w ==> z < 64

  const ZERO: Word := {}

  function Xor(a: Word, b: Word): Word
  {
    (a - b) + (b - a)
  }

  /** `a` and not `b`. */
  function AndNot(a: Word, b: Word): Word
  {
    a - b
  }

  function Rotl(a: Word, k: nat): Word
    requires k < 64
  {
    set z | z in a :: (z + k) % 64
  }

  /** The word with this value. */
  function Bits(n: nat): Word
  {
    BitsFrom(n, 0)
  }

  function BitsFrom(n: nat, z: nat): Word
    decreases 64 - z
  {
    if z >= 64 then {} else Single(n % 2 == 1, z) + BitsFrom(n / 2, z + 1)
  }

  function Single(b: bool, z: nat): Word
    requires z < 64
  {
    if b then {z} else {}
  }

  // --- values with few bits -------------------------------------------------------------------

  function Num(b: bool): nat
  {
    if b then 1 else 0
  }

  lemma LowBit(b: bool, m: nat, z: nat)
    requires z < 64
    ensures BitsFrom(Num(b) + 2 * m, z) == Single(b, z) + BitsFrom(m, z + 1)
  {
  }

  function Pow2(k: nat): nat
  {
    if k == 0 then 1 else 2 * Pow2(k - 1)
  }

  lemma {:induction false} LowZeros(m: nat, k: nat, z: nat)
    requires z + k <= 64
    ensures BitsFrom(m * Pow2(k), z) == BitsFrom(m, z + k)
    decreases k
  {
    if k > 0 {
      assert m * Pow2(k) == Num(false) + 2 * (m * Pow2(k - 1));
      LowBit(false, m * Pow2(k - 1), z);
      LowZeros(m, k - 1, z + 1);
    }
  }

  /** A bit, and the others further up. */
  lemma SparseBits(b: bool, m: nat, k: nat, p: nat, z: nat)
    requires z + 1 + k <= 64 && p == Pow2(k)
    ensures BitsFrom(Num(b) + 2 * (m * p), z) == Single(b, z) + BitsFrom(m, z + 1 + k)
  {
    LowBit(b, m * p, z);
    LowZeros(m, k, z + 1);
  }
}
