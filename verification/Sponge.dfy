/** The SHA-3 sponge over bytes: absorbing, padding, squeezing. */
module Sponge {
  import opened Prelude
  import opened Keccak
  import opened Words

  /** A byte, as the set of the positions of its one bits, least significant first. */
  type Byte = b: set<nat> | forall i :: i in b ==> i < 8

  type Bytes = seq<Byte>

  const NONE: Byte := {}
  const TOP: Byte := {7}

  // --- bytes and words ------------------------------------------------------------------

  /** Eight bytes as a little-endian word. */
  function WordOf(bs: Bytes): Word
    requires |bs| == 8
  {
    set j: nat, i: nat | j < 8 && i < 8 && i in bs[j] :: 8 * j + i
  }

  function ByteOf(w: Word, j: nat): Byte
    requires j < 8
  {
    set z | z in w && 8 * j <= z < 8 * j + 8 :: z - 8 * j
  }

  lemma WordBit(bs: Bytes, j: nat, i: nat)
    requires |bs| == 8 && j < 8 && i < 8
    ensures 8 * j + i in WordOf(bs) <==> i in bs[j]
  {
  }

  lemma ByteBit(w: Word, j: nat, i: nat)
    requires j < 8 && i < 8
    ensures i in ByteOf(w, j) <==> 8 * j + i in w
  {
  }

  /** Writing a word out gives back the bytes it was read from. */
  lemma ByteRoundTrip(bs: Bytes, j: nat)
    requires |bs| == 8 && j < 8
    ensures ByteOf(WordOf(bs), j) == bs[j]
  {
    forall i: nat | i < 8 ensures i in ByteOf(WordOf(bs), j) <==> i in bs[j] {
      WordBit(bs, j, i);
      ByteBit(WordOf(bs), j, i);
    }
  }

  // --- the sponge construction -------------------------------------------------------------

  predicate RateOk(rate: nat)
  {
    0 < rate <= 200 && rate % 8 == 0
  }

  function XorIn(s: State, block: Bytes): State
    requires |block| <= 200
  {
    seq(25, i requires 0 <= i < 25 => if 8 * i + 8 <= |block| then Xor(s[i], WordOf(block[8 * i..8 * i + 8])) else s[i])
  }

  /** The first `n` bytes of a state. */
  function FirstBytes(s: State, n: nat): Bytes
    requires n <= 200
  {
    seq<Byte>(n, k requires 0 <= k < n => ByteOf(s[k / 8], k % 8))
  }

  function Soak(s: State, block: Bytes): State
    requires |block| <= 200
  {
    Permutation(XorIn(s, block))
  }

  /** Absorbs the whole blocks of `p`. */
  function Absorb(s: State, p: Bytes, rate: nat): State
    requires RateOk(rate)
    decreases |p|
  {
    if |p| < rate then s else Absorb(Soak(s, p[..rate]), p[rate..], rate)
  }

  lemma DropBlock(p: Bytes, rate: nat)
    requires RateOk(rate) && |p| >= rate && |p| % rate == 0
    ensures (|p| - rate) % rate == 0
  {
    var q := |p| / rate;
    assert |p| == q * rate;
    assert |p| - rate == (q - 1) * rate;
    Multiple(q - 1, rate);
  }

  lemma Multiple(q: int, d: nat)
    requires d > 0
    ensures (q * d) % d == 0 && (q * d) / d == q
  {
    DivisionUnique(q * d, q, 0, d);
  }

  function Zeros(n: nat): (r: Bytes)
    ensures |r| == n && forall i :: 0 <= i < n ==> r[i] == NONE
  {
    seq<Byte>(n, _ => NONE)
  }

  function Flip(b: Byte): Byte
  {
    (b - TOP) + (TOP - b)
  }

  /** Flipping changes the top bit and no other. */
  lemma FlipBit(b: Byte, i: nat)
    ensures i in Flip(b) <==> (i in b) != (i == 7)
  {
  }

  /** The last block: what is left of the message, the suffix byte, zeros, and the final one bit. */
  function LastBlock(rest: Bytes, dsbyte: Byte, rate: nat): (r: Bytes)
    requires |rest| < rate
    ensures |r| == rate
  {
    var b := rest + [dsbyte] + Zeros(rate - 1 - |rest|);
    b[rate - 1 := Flip(b[rate - 1])]
  }

  /** The state `n` permutations on. */
  function Turn(s: State, n: nat): State
  {
    if n == 0 then s else Permutation(Turn(s, n - 1))
  }

  /** Byte `j` of the output squeezed from `s`. */
  function OutByte(s: State, rate: nat, j: nat): Byte
    requires RateOk(rate)
  {
    InBlock(j, rate);
    FirstBytes(Turn(s, j / rate), rate)[j % rate]
  }

  lemma InBlock(j: nat, rate: nat)
    requires rate > 0
    ensures 0 <= j % rate < rate && j / rate >= 0
  {
  }

  function Squeeze(s: State, rate: nat, from: nat, n: nat): (r: Bytes)
    requires RateOk(rate)
    ensures |r| == n
  {
    seq<Byte>(n, i requires 0 <= i < n => OutByte(s, rate, from + i))
  }

  /** Two reads in a row give what one long read gives. */
  lemma SqueezeSplit(s: State, rate: nat, from: nat, m: nat, n: nat)
    requires RateOk(rate)
    ensures Squeeze(s, rate, from, m + n) == Squeeze(s, rate, from, m) + Squeeze(s, rate, from + m, n)
  {
  }

  lemma {:induction false} AbsorbSplit(s: State, p: Bytes, q: Bytes, rate: nat)
    requires RateOk(rate) && |p| % rate == 0
    ensures Absorb(s, p + q, rate) == Absorb(Absorb(s, p, rate), q, rate)
    decreases |p|
  {
    hide Soak;
    if |p| >= rate {
      DropBlock(p, rate);
      assert (p + q)[..rate] == p[..rate] && (p + q)[rate..] == p[rate..] + q;
      AbsorbSplit(Soak(s, p[..rate]), p[rate..], q, rate);
    } else {
      Small(|p|, rate);
      assert p + q == q;
    }
  }

  lemma Small(n: nat, rate: nat)
    requires n < rate && n % rate == 0
    ensures n == 0
  {
  }

  lemma SumOfMultiples(a: nat, b: nat, d: nat)
    requires d > 0 && a % d == 0 && b % d == 0
    ensures (a + b) % d == 0
  {
    var p, q := a / d, b / d;
    assert a + b == (p + q) * d;
    Multiple(p + q, d);
  }

  // --- words in place --------------------------------------------------------------------------

  /** Xors a block into the first words of the array. */
  method XorInGeneric(a: array<Word>, block: Bytes)
    requires a.Length == 25 && |block| <= 200
    modifies a
    ensures a[..] == XorIn(old(a[..]), block)
  {
    hide Xor, WordOf;
    var n := |block| / 8;
    var rest := block;
    for i := 0 to n
      invariant rest == block[8 * i..]
      invariant forall k :: 0 <= k < 25 ==> a[k] == if k < i then Xor(old(a[k]), WordOf(block[8 * k..8 * k + 8])) else old(a[k])
    {
      assert rest[..8] == block[8 * i..8 * i + 8];
      a[i] := Xor(a[i], WordOf(rest[..8]));
      rest := rest[8..];
    }
  }

  /** The first `len` bytes of the words, eight at a time. */
  method CopyOutGeneric(a: array<Word>, len: nat) returns (b: Bytes)
    requires a.Length == 25 && len <= 200 && len % 8 == 0
    ensures b == FirstBytes(a[..], len)
  {
    hide ByteOf;
    b := [];
    var i := 0;
    while len - |b| >= 8
      invariant 0 <= i <= 25 && |b| == 8 * i <= len
      invariant forall k :: 0 <= k < |b| ==> b[k] == ByteOf(a[k / 8], k % 8)
      decreases len - |b|
    {
      ghost var was := b;
      b := b + EightBytes(a[i]);
      forall k | 0 <= k < |b| ensures b[k] == ByteOf(a[k / 8], k % 8) {
        if k >= |was| { assert k / 8 == i && k % 8 == k - 8 * i; }
      }
      i := i + 1;
    }
  }

  function EightBytes(w: Word): (r: Bytes)
    ensures |r| == 8 && forall j :: 0 <= j < 8 ==> r[j] == ByteOf(w, j)
  {
    seq<Byte>(8, j requires 0 <= j < 8 => ByteOf(w, j))
  }

  // --- padding and output ------------------------------------------------------------------------

  /** The message with its padding, in bytes. */
  function Padded(msg: Bytes, dsbyte: Byte, rate: nat): Bytes
    requires rate > 0
  {
    InBlock(|msg|, rate);
    var b := msg + [dsbyte] + Zeros(rate - 1 - |msg| % rate);
    b[|b| - 1 := Flip(b[|b| - 1])]
  }

  lemma LastBlockIs(rest: Bytes, dsbyte: Byte, rate: nat, block: Bytes)
    requires |rest| < rate
    requires var b := rest + [dsbyte] + Zeros(rate - (|rest| + 1)); block == b[rate - 1 := Flip(b[rate - 1])]
    ensures block == LastBlock(rest, dsbyte, rate)
  {
  }

  lemma PaddedIs(full: Bytes, rest: Bytes, dsbyte: Byte, rate: nat)
    requires rate > 0 && |full| % rate == 0 && |rest| < rate
    ensures Padded(full + rest, dsbyte, rate) == full + LastBlock(rest, dsbyte, rate)
  {
    DivisionUnique(|full| + |rest|, |full| / rate, |rest|, rate);
    var z := Zeros(rate - 1 - |rest|);
    assert (full + rest) + [dsbyte] + z == full + (rest + [dsbyte] + z);
  }

  lemma AtStart(s: State, rate: nat)
    requires RateOk(rate)
    ensures 0 / rate == 0 && 0 % rate == 0 && Turn(s, 0) == s && FirstBytes(s, rate)[0..] == FirstBytes(s, rate)
  {
  }

  lemma SqueezeNone(s: State, rate: nat, from: nat)
    requires RateOk(rate)
    ensures Squeeze(s, rate, from, 0) == []
  {
  }

  lemma BufferSize(s: State, rate: nat, taken: nat)
    requires RateOk(rate)
    ensures |FirstBytes(s, rate)| == rate && taken % rate < rate && |FirstBytes(s, rate)[taken % rate..]| == rate - taken % rate
  {
  }

  lemma Advance(taken: nat, rate: nat, k: nat)
    requires rate > 0 && taken % rate + k <= rate
    ensures taken % rate + k < rate ==> (taken + k) / rate == taken / rate && (taken + k) % rate == taken % rate + k
    ensures taken % rate + k == rate ==> (taken + k) / rate == taken / rate + 1 && (taken + k) % rate == 0
  {
    var q, m := taken / rate, taken % rate;
    assert taken == q * rate + m;
    if m + k < rate { DivisionUnique(taken + k, q, m + k, rate); } else { DivisionUnique(taken + k, q + 1, 0, rate); }
  }

  lemma OutByteIs(s: State, rate: nat, j: nat, q: nat, r: nat)
    requires RateOk(rate) && j / rate == q && j % rate == r
    ensures |FirstBytes(Turn(s, q), rate)| == rate && r < rate && OutByte(s, rate, j) == FirstBytes(Turn(s, q), rate)[r]
  {
    hide Turn;
    InBlock(j, rate);
  }

  lemma OutByteAt(source: State, rate: nat, taken: nat, i: nat)
    requires RateOk(rate) && taken % rate + i < rate
    ensures OutByte(source, rate, taken + i) == FirstBytes(Turn(source, taken / rate), rate)[taken % rate + i]
  {
    hide Turn, FirstBytes, RateOk, OutByte;
    RateBound(rate);
    Advance(taken, rate, i);
    OutByteIs(source, rate, taken + i, taken / rate, taken % rate + i);
  }

  /** The next bytes of the buffer are the next bytes of output. */
  lemma Chunk(source: State, s: State, rate: nat, taken: nat, k: nat)
    requires RateOk(rate) && s == Turn(source, taken / rate) && taken % rate + k <= rate
    ensures taken % rate < rate && |FirstBytes(s, rate)| == rate
    ensures FirstBytes(s, rate)[taken % rate..][..k] == Squeeze(source, rate, taken, k)
  {
    hide Turn, FirstBytes, OutByte;
    BufferSize(s, rate, taken);
    forall i | 0 <= i < k ensures FirstBytes(s, rate)[taken % rate..][i] == OutByte(source, rate, taken + i) {
      OutByteAt(source, rate, taken, i);
    }
  }

  lemma RateBound(rate: nat)
    requires RateOk(rate)
    ensures 0 < rate <= 200 && rate % 8 == 0
  {
  }

  lemma OneMore(s: State, p: Bytes, block: Bytes, rate: nat)
    requires RateOk(rate) && |p| % rate == 0 && |block| == rate
    ensures |p + block| % rate == 0 && Absorb(s, p + block, rate) == Soak(Absorb(s, p, rate), block)
  {
    hide Soak;
    AbsorbSplit(s, p, block, rate);
    Multiple(1, rate);
    SumOfMultiples(|p|, rate, rate);
    AbsorbOne(Absorb(s, p, rate), block, rate);
  }

  lemma AbsorbOne(s: State, block: Bytes, rate: nat)
    requires RateOk(rate) && |block| == rate
    ensures Absorb(s, block, rate) == Soak(s, block)
  {
    hide Soak;
    assert block[..rate] == block && block[rate..] == [];
    assert Absorb(Soak(s, block), block[rate..], rate) == Soak(s, block);
  }
}
