/** KECCAK-p[1600, 24] on strings of bits, as section 3 of FIPS 202 states it, and the word-level permutation
    against it. */
module KeccakBits {
  import opened Keccak
  import opened Lanes
  import opened RoundConstants
  import opened Words

  type BitString = seq<bool>

  // --- states as bit strings, section 3.1 ---------------------------------------------------------

  /** Bit A[x, y, z] of a string. */
  predicate Bit(b: BitString, x: nat, y: nat, z: nat)
    requires |b| == 1600 && In(x, y) && z < 64
  {
    b[64 * (5 * y + x) + z]
  }

  /** The string whose bit A[x, y, z] is `f(x, y, z)`. */
  function Assemble(f: (nat, nat, nat) -> bool): (r: BitString)
    ensures |r| == 1600
  {
    seq(1600, k requires 0 <= k < 1600 => f(k / 64 % 5, k / 64 / 5, k % 64))
  }

  lemma AssembledBit(f: (nat, nat, nat) -> bool, x: nat, y: nat, z: nat)
    requires In(x, y) && z < 64
    ensures Bit(Assemble(f), x, y, z) == f(x, y, z)
  {
    var k := 64 * (5 * y + x) + z;
    assert k / 64 == 5 * y + x && k % 64 == z;
  }

  /** Bit `k` of the string a state of words stands for. */
  predicate StateBit(s: State, k: nat)
    requires k < 1600
  {
    k % 64 in s[k / 64]
  }

  function StringOf(s: State): (r: BitString)
    ensures |r| == 1600
  {
    seq(1600, k requires 0 <= k < 1600 => StateBit(s, k))
  }

  lemma StringBit(s: State, x: nat, y: nat, z: nat)
    requires In(x, y) && z < 64
    ensures Bit(StringOf(s), x, y, z) == (z in Lane(s, x, y))
  {
    var k := 64 * (5 * y + x) + z;
    assert k / 64 == 5 * y + x && k % 64 == z;
  }

  /** Strings with the same bits are the same. */
  lemma SameBits(b: BitString, c: BitString)
    requires |b| == |c| == 1600
    requires forall x: nat, y: nat, z: nat :: In(x, y) && z < 64 ==> Bit(b, x, y, z) == Bit(c, x, y, z)
    ensures b == c
  {
    forall k: nat | k < 1600 ensures b[k] == c[k] {
      var x, y, z := k / 64 % 5, k / 64 / 5, k % 64;
      assert In(x, y) && k == 64 * (5 * y + x) + z;
      assert Bit(b, x, y, z) == Bit(c, x, y, z);
    }
  }

  // --- the step mappings, section 3.2 --------------------------------------------------------------

  /** The parity of a column. */
  predicate Parity(b: BitString, x: nat, z: nat)
    requires |b| == 1600 && x < 5 && z < 64
  {
    ((Bit(b, x, 0, z) != Bit(b, x, 1, z)) != Bit(b, x, 2, z)) != (Bit(b, x, 3, z) != Bit(b, x, 4, z))
  }

  predicate ThetaOfBit(b: BitString, x: nat, y: nat, z: nat)
    requires |b| == 1600 && In(x, y) && z < 64
  {
    Bit(b, x, y, z) != (Parity(b, (x - 1) % 5, z) != Parity(b, (x + 1) % 5, (z - 1) % 64))
  }

  function ThetaOf(b: BitString): BitString
    requires |b| == 1600
  {
    Assemble((x: nat, y: nat, z: nat) => In(x, y) && z < 64 && ThetaOfBit(b, x, y, z))
  }

  predicate RhoOfBit(b: BitString, x: nat, y: nat, z: nat)
    requires |b| == 1600 && In(x, y) && z < 64
  {
    Bit(b, x, y, (z - Offset(x, y)) % 64)
  }

  function RhoOf(b: BitString): BitString
    requires |b| == 1600
  {
    Assemble((x: nat, y: nat, z: nat) => In(x, y) && z < 64 && RhoOfBit(b, x, y, z))
  }

  predicate PiOfBit(b: BitString, x: nat, y: nat, z: nat)
    requires |b| == 1600 && In(x, y) && z < 64
  {
    Bit(b, (x + 3 * y) % 5, x, z)
  }

  function PiOf(b: BitString): BitString
    requires |b| == 1600
  {
    Assemble((x: nat, y: nat, z: nat) => In(x, y) && z < 64 && PiOfBit(b, x, y, z))
  }

  predicate ChiOfBit(b: BitString, x: nat, y: nat, z: nat)
    requires |b| == 1600 && In(x, y) && z < 64
  {
    Bit(b, x, y, z) != (!Bit(b, (x + 1) % 5, y, z) && Bit(b, (x + 2) % 5, y, z))
  }

  function ChiOf(b: BitString): BitString
    requires |b| == 1600
  {
    Assemble((x: nat, y: nat, z: nat) => In(x, y) && z < 64 && ChiOfBit(b, x, y, z))
  }

  /** Whether round `i` flips bit `z` of lane (0, 0), by the first `n` of its seven values. */
  predicate Flips(i: nat, n: nat, z: nat)
  {
    exists j: nat :: j < n && z == Pow2(j) - 1 && Rc(j + 7 * i)
  }

  predicate IotaOfBit(b: BitString, i: nat, x: nat, y: nat, z: nat)
    requires |b| == 1600 && In(x, y) && z < 64
  {
    Bit(b, x, y, z) != (x == 0 && y == 0 && Flips(i, 7, z))
  }

  function IotaOf(b: BitString, i: nat): BitString
    requires |b| == 1600
  {
    Assemble((x: nat, y: nat, z: nat) => In(x, y) && z < 64 && IotaOfBit(b, i, x, y, z))
  }

  function RoundOf(b: BitString, i: nat): (r: BitString)
    requires |b| == 1600
    ensures |r| == 1600
  {
    IotaOf(ChiOf(PiOf(RhoOf(ThetaOf(b)))), i)
  }

  function RoundsOf(b: BitString, n: nat): (r: BitString)
    requires |b| == 1600
    ensures |r| == 1600
  {
    if n == 0 then b else RoundOf(RoundsOf(b, n - 1), n - 1)
  }

  /** KECCAK-p[1600, 24]. */
  function KeccakP(b: BitString): (r: BitString)
    requires |b| == 1600
    ensures |r| == 1600
  {
    RoundsOf(b, 24)
  }

  lemma ThetaOfAt(b: BitString, x: nat, y: nat, z: nat)
    requires |b| == 1600 && In(x, y) && z < 64
    ensures Bit(ThetaOf(b), x, y, z) == ThetaOfBit(b, x, y, z)
  {
    hide Bit, Assemble, ThetaOfBit;
    AssembledBit((x: nat, y: nat, z: nat) => In(x, y) && z < 64 && ThetaOfBit(b, x, y, z), x, y, z);
  }

  lemma RhoOfAt(b: BitString, x: nat, y: nat, z: nat)
    requires |b| == 1600 && In(x, y) && z < 64
    ensures Bit(RhoOf(b), x, y, z) == RhoOfBit(b, x, y, z)
  {
    hide Bit, Assemble, RhoOfBit;
    AssembledBit((x: nat, y: nat, z: nat) => In(x, y) && z < 64 && RhoOfBit(b, x, y, z), x, y, z);
  }

  lemma PiOfAt(b: BitString, x: nat, y: nat, z: nat)
    requires |b| == 1600 && In(x, y) && z < 64
    ensures Bit(PiOf(b), x, y, z) == PiOfBit(b, x, y, z)
  {
    hide Bit, Assemble, PiOfBit;
    AssembledBit((x: nat, y: nat, z: nat) => In(x, y) && z < 64 && PiOfBit(b, x, y, z), x, y, z);
  }

  lemma ChiOfAt(b: BitString, x: nat, y: nat, z: nat)
    requires |b| == 1600 && In(x, y) && z < 64
    ensures Bit(ChiOf(b), x, y, z) == ChiOfBit(b, x, y, z)
  {
    hide Bit, Assemble, ChiOfBit;
    AssembledBit((x: nat, y: nat, z: nat) => In(x, y) && z < 64 && ChiOfBit(b, x, y, z), x, y, z);
  }

  lemma IotaOfAt(b: BitString, i: nat, x: nat, y: nat, z: nat)
    requires |b| == 1600 && In(x, y) && z < 64
    ensures Bit(IotaOf(b, i), x, y, z) == IotaOfBit(b, i, x, y, z)
  {
    hide Bit, Assemble, IotaOfBit;
    AssembledBit((x: nat, y: nat, z: nat) => In(x, y) && z < 64 && IotaOfBit(b, i, x, y, z), x, y, z);
  }

  // --- words, bit by bit --------------------------------------------------------------------------------

  lemma RotlBit(a: Word, k: nat, z: nat)
    requires k < 64 && z < 64
    ensures z in Rotl(a, k) <==> (z - k) % 64 in a
  {
  }

  lemma ColumnBit(s: State, x: nat, z: nat)
    requires x < 5 && z < 64
    ensures z in Column(s, x) <==> Parity(StringOf(s), x, z)
  {
    hide Lane, StringOf, Bit;
    StringBit(s, x, 0, z);
    StringBit(s, x, 1, z);
    StringBit(s, x, 2, z);
    StringBit(s, x, 3, z);
    StringBit(s, x, 4, z);
  }

  /** Theta, section 3.2.1. */
  lemma ThetaAgrees(s: State)
    ensures StringOf(Theta(s)) == ThetaOf(StringOf(s))
  {
    hide Lane, StringOf, Bit, Theta, Assemble;
    forall x: nat, y: nat, z: nat | In(x, y) && z < 64 ensures Bit(StringOf(Theta(s)), x, y, z) == Bit(ThetaOf(StringOf(s)), x, y, z) { ThetaBit(s, x, y, z); }
    SameBits(StringOf(Theta(s)), ThetaOf(StringOf(s)));
  }

  lemma ThetaBit(s: State, x: nat, y: nat, z: nat)
    requires In(x, y) && z < 64
    ensures Bit(StringOf(Theta(s)), x, y, z) == Bit(ThetaOf(StringOf(s)), x, y, z)
  {
    hide ThetaOf, Lane, StringOf, Bit, Theta, Parity, Column, Rotl, Assemble;
    var b := StringOf(s);
    ThetaOfAt(b, x, y, z);
    StringBit(s, x, y, z);
    StringBit(Theta(s), x, y, z);
    ThetaAt(s, x, y);
    assert (x - 1) % 5 == (x + 4) % 5;
    ColumnBit(s, (x + 4) % 5, z);
    ColumnBit(s, (x + 1) % 5, (z - 1) % 64);
    RotlBit(Column(s, (x + 1) % 5), 1, z);
  }

  /** Rho, section 3.2.2. */
  lemma RhoAgrees(s: State)
    ensures StringOf(Rho(s)) == RhoOf(StringOf(s))
  {
    hide Lane, StringOf, Bit, Rho, Assemble;
    forall x: nat, y: nat, z: nat | In(x, y) && z < 64 ensures Bit(StringOf(Rho(s)), x, y, z) == Bit(RhoOf(StringOf(s)), x, y, z) { RhoBit(s, x, y, z); }
    SameBits(StringOf(Rho(s)), RhoOf(StringOf(s)));
  }

  lemma RhoBit(s: State, x: nat, y: nat, z: nat)
    requires In(x, y) && z < 64
    ensures Bit(StringOf(Rho(s)), x, y, z) == Bit(RhoOf(StringOf(s)), x, y, z)
  {
    hide RhoOf, Lane, StringOf, Bit, Rho, Rotl, Offset, Assemble;
    var b := StringOf(s);
    RhoOfAt(b, x, y, z);
    StringBit(s, x, y, (z - Offset(x, y)) % 64);
    StringBit(Rho(s), x, y, z);
    RhoAt(s, x, y);
    RotlBit(Lane(s, x, y), Offset(x, y), z);
  }

  /** Pi, section 3.2.3. */
  lemma PiAgrees(s: State)
    ensures StringOf(Pi(s)) == PiOf(StringOf(s))
  {
    hide Lane, StringOf, Bit, Pi, Assemble;
    forall x: nat, y: nat, z: nat | In(x, y) && z < 64 ensures Bit(StringOf(Pi(s)), x, y, z) == Bit(PiOf(StringOf(s)), x, y, z) { PiBit(s, x, y, z); }
    SameBits(StringOf(Pi(s)), PiOf(StringOf(s)));
  }

  lemma PiBit(s: State, x: nat, y: nat, z: nat)
    requires In(x, y) && z < 64
    ensures Bit(StringOf(Pi(s)), x, y, z) == Bit(PiOf(StringOf(s)), x, y, z)
  {
    hide PiOf, Lane, StringOf, Bit, Pi, Assemble;
    var b := StringOf(s);
    PiOfAt(b, x, y, z);
    StringBit(s, (x + 3 * y) % 5, x, z);
    StringBit(Pi(s), x, y, z);
    PiAt(s, x, y);
  }

  /** Chi, section 3.2.4. */
  lemma ChiAgrees(s: State)
    ensures StringOf(Chi(s)) == ChiOf(StringOf(s))
  {
    hide Lane, StringOf, Bit, Chi, Assemble;
    forall x: nat, y: nat, z: nat | In(x, y) && z < 64 ensures Bit(StringOf(Chi(s)), x, y, z) == Bit(ChiOf(StringOf(s)), x, y, z) { ChiBit(s, x, y, z); }
    SameBits(StringOf(Chi(s)), ChiOf(StringOf(s)));
  }

  lemma ChiLaneBit(s: State, x: nat, y: nat, z: nat)
    requires In(x, y) && z < 64
    ensures z in Lane(Chi(s), x, y) <==> (z in Lane(s, x, y)) != (z !in Lane(s, (x + 1) % 5, y) && z in Lane(s, (x + 2) % 5, y))
  {
    hide Lane, Chi;
    ChiAt(s, x, y);
  }

  lemma ChiBit(s: State, x: nat, y: nat, z: nat)
    requires In(x, y) && z < 64
    ensures Bit(StringOf(Chi(s)), x, y, z) == Bit(ChiOf(StringOf(s)), x, y, z)
  {
    hide ChiOf, Lane, StringOf, Bit, Chi, Assemble;
    var b := StringOf(s);
    ChiOfAt(b, x, y, z);
    StringBit(s, x, y, z);
    StringBit(s, (x + 1) % 5, y, z);
    StringBit(s, (x + 2) % 5, y, z);
    StringBit(Chi(s), x, y, z);
    ChiLaneBit(s, x, y, z);
  }

  /** Iota, section 3.2.5. */
  lemma IotaAgrees(s: State, i: nat)
    ensures StringOf(Iota(s, RoundConstant(i))) == IotaOf(StringOf(s), i)
  {
    hide Lane, StringOf, Bit, Iota, Assemble, RoundConstant;
    var t := Iota(s, RoundConstant(i));
    forall x: nat, y: nat, z: nat | In(x, y) && z < 64 ensures Bit(StringOf(t), x, y, z) == Bit(IotaOf(StringOf(s), i), x, y, z) { IotaBit(s, i, x, y, z); }
    SameBits(StringOf(t), IotaOf(StringOf(s), i));
  }

  lemma IotaBit(s: State, i: nat, x: nat, y: nat, z: nat)
    requires In(x, y) && z < 64
    ensures Bit(StringOf(Iota(s, RoundConstant(i))), x, y, z) == Bit(IotaOf(StringOf(s), i), x, y, z)
  {
    hide IotaOf, StringOf, Bit, Assemble, RoundConstant, Flips;
    var b := StringOf(s);
    IotaOfAt(b, i, x, y, z);
    StringBit(s, x, y, z);
    StringBit(Iota(s, RoundConstant(i)), x, y, z);
    ConstantFlips(i, z);
  }

  lemma ConstantFlips(i: nat, z: nat)
    ensures z in RoundConstant(i) <==> Flips(i, 7, z)
  {
    hide ConstantBits, Pow2, Rc;
    ConstantBit(i, 7, z);
  }

  lemma {:induction false} ConstantBit(i: nat, n: nat, z: nat)
    requires n <= 7
    ensures z in ConstantBits(i, n) <==> Flips(i, n, z)
    decreases n
  {
    hide Pow2, Rc;
    if n > 0 {
      ConstantBit(i, n - 1, z);
      PowBound(n - 1);
    }
  }

  // --- the permutation -------------------------------------------------------------------------------------

  /** One round of words is one round of bits. */
  lemma RoundAgrees(s: State, i: nat)
    ensures StringOf(Round(s, RoundConstant(i))) == RoundOf(StringOf(s), i)
  {
    hide StringOf, Theta, Rho, Pi, Chi, Iota, ThetaOf, RhoOf, PiOf, ChiOf, IotaOf, RoundConstant;
    ThetaAgrees(s);
    RhoAgrees(Theta(s));
    PiAgrees(Rho(Theta(s)));
    ChiAgrees(Pi(Rho(Theta(s))));
    IotaAgrees(Chi(Pi(Rho(Theta(s)))), i);
  }

  lemma {:induction false} RoundsAgree(s: State, n: nat)
    requires n <= 24
    ensures StringOf(Rounds(s, n)) == RoundsOf(StringOf(s), n)
  {
    hide StringOf, Round, RoundOf, RoundConstant;
    if n > 0 {
      RoundsAgree(s, n - 1);
      RoundAgrees(Rounds(s, n - 1), n - 1);
    }
  }

  /** The permutation of words is KECCAK-p[1600, 24] on the string it stands for. */
  lemma PermutationAgrees(s: State)
    ensures StringOf(Permutation(s)) == KeccakP(StringOf(s))
  {
    RoundsAgree(s, 24);
  }
}
