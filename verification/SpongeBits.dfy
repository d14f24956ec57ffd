/** The byte-level sponge read as the bit strings of FIPS 202. */
module SpongeBits {
  import opened Prelude
  import opened Keccak
  import opened KeccakBits
  import opened Words
  import opened Sponge

  /** Bytes as bits, least significant bit first. */
  function BitsOf(bs: Bytes): (r: BitString)
    ensures |r| == 8 * |bs|
  {
    seq(8 * |bs|, k requires 0 <= k < 8 * |bs| => (k % 8) in bs[k / 8])
  }

  lemma BitAt(bs: Bytes, j: nat, i: nat)
    requires j < |bs| && i < 8
    ensures 8 * j + i < 8 * |bs| && BitsOf(bs)[8 * j + i] == (i in bs[j])
  {
  }

  // --- the padding of section 5.1 ----------------------------------------------------------

  /** The suffix bits followed by the first bit of the padding. */
  function SuffixByte(m: BitString): Byte
    requires |m| <= 7
  {
    (set i: nat | i < |m| && m[i]) + {|m|}
  }

  function Off(n: nat): (r: BitString)
    ensures |r| == n && forall i :: 0 <= i < n ==> !r[i]
  {
    seq(n, _ => false)
  }

  /** pad10*1: a one, the least number of zeros, and a one, up to a multiple of `x`. */
  function Pad10Star1(x: nat, len: int): BitString
    requires x > 0 && len >= 0
  {
    [true] + Off((-len - 2) % x) + [true]
  }

  lemma PaddedLength(msg: Bytes, m: BitString, rate: nat)
    requires rate > 0 && |m| <= 6
    ensures var n := |Padded(msg, SuffixByte(m), rate)|;
            n == |msg| - |msg| % rate + rate && 8 * n == 8 * |msg| + |m| + |Pad10Star1(8 * rate, 8 * |msg| + |m|)|
  {
    var q, r, x := |msg| / rate, |msg| % rate, 8 * rate;
    var n := |msg| - r + rate;
    var j := 8 * n - 8 * |msg| - |m| - 2;
    assert |msg| == q * rate + r;
    assert -(8 * |msg| + |m|) - 2 == (-(q + 1)) * x + j;
    DivisionUnique(-(8 * |msg| + |m|) - 2, -(q + 1), j, x);
  }

  /** Bit `i` of byte `j` of the padded message. */
  lemma PaddedByte(msg: Bytes, ds: Byte, rate: nat, j: nat)
    requires rate > 0 && |msg| <= j < |Padded(msg, ds, rate)|
    ensures var last := j == |Padded(msg, ds, rate)| - 1;
            Padded(msg, ds, rate)[j] ==
              if j == |msg| then (if last then Flip(ds) else ds) else (if last then Flip(NONE) else NONE)
  {
  }

  lemma TailBit(m: BitString, pad: BitString, i: nat, n: nat)
    requires |m| <= 6 && |pad| >= 2 && n == |m| + |pad| && i < n && n >= 8
    requires pad == [true] + Off(|pad| - 2) + [true]
    ensures (m + pad)[i] == if i < |m| then m[i] else i == |m| || i == n - 1
  {
  }

  lemma SuffixBit(m: BitString, i: nat)
    requires |m| <= 6 && i < 8
    ensures i in SuffixByte(m) <==> (i < |m| && m[i]) || i == |m|
    ensures i in Flip(SuffixByte(m)) <==> (i < |m| && m[i]) || i == |m| || i == 7
    ensures i in Flip(NONE) <==> i == 7
  {
  }

  /** Padding by bytes is the suffix and pad10*1 of the bit string, for every message and every suffix
      of up to six bits. */
  lemma PadIsStandard(msg: Bytes, m: BitString, rate: nat)
    requires rate > 0 && |m| <= 6
    ensures BitsOf(Padded(msg, SuffixByte(m), rate)) == BitsOf(msg) + m + Pad10Star1(8 * rate, 8 * |msg| + |m|)
  {
    hide SuffixByte, Flip;
    PaddedLength(msg, m, rate);
    var p, pad := Padded(msg, SuffixByte(m), rate), Pad10Star1(8 * rate, 8 * |msg| + |m|);
    var l, r := BitsOf(p), BitsOf(msg) + m + pad;
    forall k: nat | k < |l| ensures l[k] == r[k] {
      PadBit(msg, m, rate, k / 8, k % 8);
    }
    assert l == r;
  }

  lemma PadBit(msg: Bytes, m: BitString, rate: nat, j: nat, i: nat)
    requires rate > 0 && |m| <= 6 && j < |Padded(msg, SuffixByte(m), rate)| && i < 8
    ensures 8 * j + i < |BitsOf(msg) + m + Pad10Star1(8 * rate, 8 * |msg| + |m|)|
    ensures BitsOf(Padded(msg, SuffixByte(m), rate))[8 * j + i] == (BitsOf(msg) + m + Pad10Star1(8 * rate, 8 * |msg| + |m|))[8 * j + i]
  {
    hide SuffixByte, Flip, BitsOf;
    PaddedLength(msg, m, rate);
    var p, pad := Padded(msg, SuffixByte(m), rate), Pad10Star1(8 * rate, 8 * |msg| + |m|);
    BitAt(p, j, i);
    if j < |msg| {
      BitAt(msg, j, i);
      PaddedHead(msg, SuffixByte(m), rate, j);
    } else {
      PaddedByte(msg, SuffixByte(m), rate, j);
      SuffixBit(m, i);
      var k := 8 * j + i - 8 * |msg|;
      TailBit(m, pad, k, |m| + |pad|);
      assert (BitsOf(msg) + m + pad)[8 * j + i] == (m + pad)[k];
    }
  }

  lemma PaddedHead(msg: Bytes, ds: Byte, rate: nat, j: nat)
    requires rate > 0 && j < |msg|
    ensures j < |Padded(msg, ds, rate)| && Padded(msg, ds, rate)[j] == msg[j]
  {
  }

  // --- blocks as bits ------------------------------------------------------------------------

  /** Absorbing a block flips exactly the state bits the block has ones at. */
  lemma XorInBit(s: State, block: Bytes, k: nat)
    requires |block| <= 200 && |block| % 8 == 0 && k < 1600
    ensures StateBit(XorIn(s, block), k) == (StateBit(s, k) != (k < 8 * |block| && BitsOf(block)[k]))
  {
    hide WordOf, BitsOf;
    var i, z := k / 64, k % 64;
    var j := z / 8;
    if 8 * i + 8 <= |block| {
      var w := block[8 * i..8 * i + 8];
      WordBit(w, j, z % 8);
      BitAt(block, 8 * i + j, z % 8);
      assert k == 8 * (8 * i + j) + z % 8;
    }
  }

  /** The bytes squeezed are the state's bits from the start. */
  lemma FirstBytesBit(s: State, n: nat, k: nat)
    requires n <= 200 && k < 8 * n
    ensures BitsOf(FirstBytes(s, n))[k] == StateBit(s, k)
  {
    hide ByteOf;
    var j, i := k / 8, k % 8;
    assert k / 64 == j / 8 && k % 64 == 8 * (j % 8) + i;
    ByteBit(s[j / 8], j % 8, i);
  }

  // --- section 4: the sponge construction on bit strings ----------------------------------------

  function XorBits(a: BitString, b: BitString): (r: BitString)
    requires |a| == |b|
    ensures |r| == |a|
  {
    seq(|a|, k requires 0 <= k < |a| => a[k] != b[k])
  }

  function AbsorbBits(s: BitString, p: BitString, r: nat): (t: BitString)
    requires |s| == 1600 && 0 < r <= 1600
    ensures |t| == 1600
    decreases |p|
  {
    if |p| < r then s else AbsorbBits(KeccakP(XorBits(s, p[..r] + Off(1600 - r))), p[r..], r)
  }

  function SqueezeBits(z: BitString, s: BitString, r: nat, d: nat): (t: BitString)
    requires |s| == 1600 && 0 < r <= 1600
    ensures |z| <= d ==> |t| == d
    decreases if d > |z| then d - |z| else 0
  {
    var z' := z + s[..r];
    if d <= |z'| then z'[..d] else SqueezeBits(z', KeccakP(s), r, d)
  }

  /** SPONGE with KECCAK-p[1600, 24] and pad10*1, rate `r`: `d` bits for the string `n`. */
  function SPONGE(n: BitString, r: nat, d: nat): (t: BitString)
    requires 0 < r <= 1600
    ensures |t| == d
  {
    SqueezeBits([], AbsorbBits(Off(1600), n + Pad10Star1(r, |n|), r), r, d)
  }

  // --- the bytes agree ----------------------------------------------------------------------------

  lemma BitsOfSplit(p: Bytes, n: nat)
    requires n <= |p|
    ensures BitsOf(p)[..8 * n] == BitsOf(p[..n]) && BitsOf(p)[8 * n..] == BitsOf(p[n..])
  {
    var l, r := BitsOf(p)[8 * n..], BitsOf(p[n..]);
    forall k | 0 <= k < |l| ensures l[k] == r[k] {
      assert (8 * n + k) / 8 == n + k / 8 && (8 * n + k) % 8 == k % 8;
    }
  }

  lemma BitsOfJoin(p: Bytes, q: Bytes)
    ensures BitsOf(p + q) == BitsOf(p) + BitsOf(q)
  {
    hide BitsOf;
    BitsOfSplit(p + q, |p|);
    assert (p + q)[..|p|] == p && (p + q)[|p|..] == q;
    assert BitsOf(p + q) == BitsOf(p + q)[..8 * |p|] + BitsOf(p + q)[8 * |p|..];
  }

  lemma SoakAgrees(s: State, block: Bytes, rate: nat)
    requires RateOk(rate) && |block| == rate
    ensures StringOf(Soak(s, block)) == KeccakP(XorBits(StringOf(s), BitsOf(block) + Off(1600 - 8 * rate)))
  {
    hide Permutation, XorIn, BitsOf, KeccakP, RateOk;
    RateBound(rate);
    var l, r := StringOf(XorIn(s, block)), XorBits(StringOf(s), BitsOf(block) + Off(1600 - 8 * rate));
    forall k | 0 <= k < 1600 ensures l[k] == r[k] { XorInBit(s, block, k); }
    assert l == r;
    PermutationAgrees(XorIn(s, block));
  }

  lemma {:induction false} AbsorbAgrees(s: State, p: Bytes, rate: nat)
    requires RateOk(rate)
    ensures 0 < 8 * rate <= 1600 && StringOf(Absorb(s, p, rate)) == AbsorbBits(StringOf(s), BitsOf(p), 8 * rate)
    decreases |p|
  {
    hide Soak, StringOf, KeccakP, BitsOf, RateOk, XorBits;
    RateBound(rate);
    if |p| >= rate {
      BitsOfSplit(p, rate);
      SoakAgrees(s, p[..rate], rate);
      AbsorbAgrees(Soak(s, p[..rate]), p[rate..], rate);
    }
  }

  lemma BlockAgrees(s: State, rate: nat)
    requires RateOk(rate)
    ensures 8 * rate <= 1600 && BitsOf(FirstBytes(s, rate)) == StringOf(s)[..8 * rate]
  {
    hide FirstBytes, StateBit, BitsOf, RateOk;
    RateBound(rate);
    FirstBytesSize(s, rate);
    var l, r := BitsOf(FirstBytes(s, rate)), StringOf(s)[..8 * rate];
    forall k | 0 <= k < 8 * rate ensures l[k] == r[k] { FirstBytesBit(s, rate, k); }
    assert l == r;
  }

  lemma FirstBytesSize(s: State, rate: nat)
    requires rate <= 200
    ensures |FirstBytes(s, rate)| == rate
  {
  }

  /** One more block of output. */
  lemma NextBlock(s: State, rate: nat, k: nat)
    requires RateOk(rate)
    ensures Squeeze(s, rate, 0, (k + 1) * rate) == Squeeze(s, rate, 0, k * rate) + FirstBytes(Turn(s, k), rate)
  {
    hide Turn, FirstBytes, Squeeze, RateOk;
    RateBound(rate);
    assert (k + 1) * rate == k * rate + rate;
    SqueezeSplit(s, rate, 0, k * rate, rate);
    Multiple(k, rate);
    BufferSize(Turn(s, k), rate, k * rate);
    Chunk(s, Turn(s, k), rate, k * rate, rate);
    var block := FirstBytes(Turn(s, k), rate);
    assert block[0..][..rate] == block;
  }

  lemma SqueezePrefix(s: State, rate: nat, m: nat, n: nat)
    requires RateOk(rate) && n <= m
    ensures Squeeze(s, rate, 0, m)[..n] == Squeeze(s, rate, 0, n)
  {
    hide OutByte;
  }

  lemma TurnAgrees(s: State, k: nat)
    ensures StringOf(Turn(s, k + 1)) == KeccakP(StringOf(Turn(s, k)))
  {
    hide Permutation, KeccakP, StringOf;
    PermutationAgrees(Turn(s, k));
  }

  lemma {:induction false} SqueezeAgrees(s: State, rate: nat, k: nat, n: nat)
    requires RateOk(rate)
    ensures 0 < 8 * rate <= 1600 && BitsOf(Squeeze(s, rate, 0, n)) == SqueezeBits(BitsOf(Squeeze(s, rate, 0, k * rate)), StringOf(Turn(s, k)), 8 * rate, 8 * n)
    decreases if n > k * rate then n - k * rate else 0
  {
    hide Turn, Squeeze, StringOf, KeccakP, BitsOf, RateOk, FirstBytes;
    RateBound(rate);
    var m := (k + 1) * rate;
    assert m == k * rate + rate;
    NextBlock(s, rate, k);
    BitsOfJoin(Squeeze(s, rate, 0, k * rate), FirstBytes(Turn(s, k), rate));
    BlockAgrees(Turn(s, k), rate);
    if n <= m {
      SqueezePrefix(s, rate, m, n);
      BitsOfSplit(Squeeze(s, rate, 0, m), n);
    } else {
      TurnAgrees(s, k);
      SqueezeAgrees(s, rate, k + 1, n);
    }
  }

  lemma ZerosAgree()
    ensures StringOf(ZEROS) == Off(1600)
  {
  }

  /** The sponge over bytes is the standard's sponge over bits, for every message, every suffix of up to six
      bits, every rate the hashers use and every length of output. */
  lemma SpongeIsStandard(msg: Bytes, m: BitString, rate: nat, n: nat)
    requires RateOk(rate) && |m| <= 6
    ensures 0 < 8 * rate <= 1600
    ensures BitsOf(Squeeze(Absorb(ZEROS, Padded(msg, SuffixByte(m), rate), rate), rate, 0, n)) == SPONGE(BitsOf(msg) + m, 8 * rate, 8 * n)
  {
    hide Absorb, Squeeze, Padded, BitsOf, SuffixByte, Pad10Star1, AbsorbBits, SqueezeBits, StringOf, Turn, RateOk;
    RateBound(rate);
    PadIsStandard(msg, m, rate);
    var s := Absorb(ZEROS, Padded(msg, SuffixByte(m), rate), rate);
    AbsorbAgrees(ZEROS, Padded(msg, SuffixByte(m), rate), rate);
    ZerosAgree();
    SqueezeAgrees(s, rate, 0, n);
    AtStart(s, rate);
    SqueezeNone(s, rate, 0);
    NoBytes();
  }

  lemma NoBytes()
    ensures BitsOf([]) == []
  {
  }

  // --- domain bytes, section 6 --------------------------------------------------------------------

  predicate BitOf(n: nat, i: nat)
  {
    if i == 0 then n % 2 == 1 else BitOf(n / 2, i - 1)
  }

  /** The byte with this value. */
  function Octet(n: nat): Byte
  {
    set i: nat | i < 8 && BitOf(n, i)
  }

  const KECCAK_SUFFIX: BitString := []
  const SHA3_SUFFIX: BitString := [false, true]
  const SHAKE_SUFFIX: BitString := [true, true, true, true]

  /** The domain bytes are the suffixes of section 6 and the first bit of the padding. */
  lemma DomainBytes()
    ensures Octet(0x01) == SuffixByte(KECCAK_SUFFIX) && Octet(0x06) == SuffixByte(SHA3_SUFFIX) && Octet(0x1f) == SuffixByte(SHAKE_SUFFIX)
  {
    assert BitOf(0x01, 0) && !BitOf(0x01, 1) && !BitOf(0x01, 2) && !BitOf(0x01, 3) && !BitOf(0x01, 4) && !BitOf(0x01, 5) && !BitOf(0x01, 6) && !BitOf(0x01, 7);
    assert !BitOf(0x06, 0) && BitOf(0x06, 1) && BitOf(0x06, 2) && !BitOf(0x06, 3) && !BitOf(0x06, 4) && !BitOf(0x06, 5) && !BitOf(0x06, 6) && !BitOf(0x06, 7);
    assert BitOf(0x1f, 0) && BitOf(0x1f, 1) && BitOf(0x1f, 2) && BitOf(0x1f, 3) && BitOf(0x1f, 4) && !BitOf(0x1f, 5) && !BitOf(0x1f, 6) && !BitOf(0x1f, 7);
    Singles();
  }

  lemma Singles()
    ensures SuffixByte(KECCAK_SUFFIX) == {0} && SuffixByte(SHA3_SUFFIX) == {1, 2} && SuffixByte(SHAKE_SUFFIX) == {0, 1, 2, 3, 4}
  {
  }
}
