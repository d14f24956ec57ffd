/** The buffered hasher, against SPONGE of section 4 of FIPS 202. */
module Sha3 {
  import opened Prelude
  import opened Keccak
  import opened KeccakBits
  import opened Sponge
  import opened SpongeBits
  import opened Words

  /** The state has absorbed the whole padded message. */
  ghost predicate Absorbed(source: State, msg: Bytes, dsbyte: Byte, rate: nat)
    requires RateOk(rate)
  {
    source == Absorb(ZEROS, Padded(msg, dsbyte, rate), rate)
  }

  /** `out` is what the standard's sponge puts out from byte `from` on, for whatever message the state
      has absorbed and whatever suffix the domain byte stands for. */
  ghost predicate IsOutput(source: State, dsbyte: Byte, rate: nat, from: nat, out: Bytes)
    requires RateOk(rate)
  {
    forall msg, m :: |m| <= 6 && dsbyte == SuffixByte(m) && Absorbed(source, msg, dsbyte, rate) ==>
      BitsOf(out) == SPONGE(BitsOf(msg) + m, 8 * rate, 8 * (from + |out|))[8 * from..]
  }

  lemma OutputIsStandard(source: State, dsbyte: Byte, rate: nat, from: nat, n: nat)
    requires RateOk(rate)
    ensures IsOutput(source, dsbyte, rate, from, Squeeze(source, rate, from, n))
  {
    hide Squeeze, Absorb, Padded, BitsOf, SuffixByte, SPONGE, RateOk;
    RateBound(rate);
    var out := Squeeze(source, rate, from, n);
    forall msg, m | |m| <= 6 && dsbyte == SuffixByte(m) && Absorbed(source, msg, dsbyte, rate)
      ensures BitsOf(out) == SPONGE(BitsOf(msg) + m, 8 * rate, 8 * (from + |out|))[8 * from..]
    {
      SpongeIsStandard(msg, m, rate, from + n);
      SqueezeSplit(source, rate, 0, from, n);
      BitsOfJoin(Squeeze(source, rate, 0, from), out);
    }
  }

  /** `r` is `prefix` and the standard's digest of the message. */
  ghost predicate IsDigest(msg: Bytes, dsbyte: Byte, rate: nat, n: nat, prefix: Bytes, r: Bytes)
    requires RateOk(rate)
  {
    forall m :: |m| <= 6 && dsbyte == SuffixByte(m) ==> BitsOf(r) == BitsOf(prefix) + SPONGE(BitsOf(msg) + m, 8 * rate, 8 * n)
  }

  lemma DigestIsStandard(msg: Bytes, dsbyte: Byte, rate: nat, n: nat, prefix: Bytes)
    requires RateOk(rate)
    ensures IsDigest(msg, dsbyte, rate, n, prefix, prefix + Squeeze(Absorb(ZEROS, Padded(msg, dsbyte, rate), rate), rate, 0, n))
  {
    hide Squeeze, Absorb, Padded, BitsOf, SuffixByte, SPONGE, RateOk;
    RateBound(rate);
    var out := Squeeze(Absorb(ZEROS, Padded(msg, dsbyte, rate), rate), rate, 0, n);
    BitsOfJoin(prefix, out);
    forall m | |m| <= 6 && dsbyte == SuffixByte(m) ensures BitsOf(prefix + out) == BitsOf(prefix) + SPONGE(BitsOf(msg) + m, 8 * rate, 8 * n) {
      SpongeIsStandard(msg, m, rate, n);
    }
  }

  datatype Direction = Absorbing | Squeezing

  class Hasher {
    const a: array<Word>
    const rate: nat
    const dsbyte: Byte
    const outputLen: nat
    var buf: Bytes
    var state: Direction

    /** The whole blocks written so far. */
    ghost var full: Bytes
    /** The state squeezing started from, and how many bytes were taken since. */
    ghost var source: State
    ghost var taken: nat

    ghost predicate Valid()
      reads this, a
    {
      a.Length == 25 && RateOk(rate) &&
      match state
      case Absorbing => |buf| < rate && |full| % rate == 0 && a[..] == Absorb(ZEROS, full, rate)
      case Squeezing => a[..] == Turn(source, taken / rate) && buf == FirstBytes(a[..], rate)[taken % rate..]
    }

    /** What has been written. */
    ghost function Message(): Bytes
      reads this
    {
      full + buf
    }

    constructor (rate: nat, outputLen: nat, dsbyte: Byte)
      requires RateOk(rate)
      ensures Valid() && state == Absorbing && Message() == [] && fresh(a)
      ensures this.rate == rate && this.outputLen == outputLen && this.dsbyte == dsbyte
    {
      this.a := new Word[25](_ => ZERO);
      this.rate, this.outputLen, this.dsbyte := rate, outputLen, dsbyte;
      buf, state, full, source, taken := [], Absorbing, [], ZEROS, 0;
    }

    method Reset()
      requires Valid()
      modifies this, a
      ensures Valid() && state == Absorbing && Message() == []
    {
      for i := 0 to 25
        modifies a
        invariant forall k :: 0 <= k < i ==> a[k] == ZERO
      {
        a[i] := ZERO;
      }
      assert a[..] == ZEROS;
      state, buf, full := Absorbing, [], [];
    }

    /** Absorbs a full buffer. */
    method PermuteAbsorbing()
      requires a.Length == 25 && RateOk(rate) && |buf| == rate && state == Absorbing
      requires |full| % rate == 0 && a[..] == Absorb(ZEROS, full, rate)
      modifies this`buf, this`full, a
      ensures Valid() && Message() == old(Message()) && buf == []
    {
      hide Permutation, XorIn, Absorb, RateOk;
      RateBound(rate);
      XorInGeneric(a, buf);
      KeccakF1600(a);
      OneMore(ZEROS, full, buf, rate);
      full, buf := full + buf, [];
    }

    /** Adds data to the message; writing after reading is refused. */
    method Write(data: Bytes) returns (written: Option<nat>)
      requires Valid()
      modifies this`buf, this`full, a
      ensures Valid()
      ensures state == Absorbing ==> written == Some(|data|) && Message() == old(Message()) + data
      ensures state == Squeezing ==> written == None && a[..] == old(a[..]) && buf == old(buf) && full == old(full)
    {
      hide Permutation, XorIn, Absorb, RateOk;
      if state != Absorbing { return None; }
      RateBound(rate);
      var p := data;
      while |p| > 0
        invariant Valid() && Message() + p == old(Message()) + data
        decreases |p|
      {
        if |buf| == 0 && |p| >= rate {
          XorInGeneric(a, p[..rate]);
          KeccakF1600(a);
          OneMore(ZEROS, full, p[..rate], rate);
          assert full + p == (full + p[..rate]) + p[rate..];
          full := full + p[..rate];
          p := p[rate..];
        } else {
          var todo := rate - |buf|;
          if todo > |p| { todo := |p|; }
          assert (full + buf) + p == (full + (buf + p[..todo])) + p[todo..];
          buf := buf + p[..todo];
          p := p[todo..];
          if |buf| == rate { PermuteAbsorbing(); }
        }
      }
      return Some(|data|);
    }

    /** Ends the message: pads it, absorbs the last block and starts squeezing. */
    method PadAndPermute()
      requires Valid() && state == Absorbing
      modifies this, a
      ensures Valid() && state == Squeezing && taken == 0
      ensures Absorbed(source, old(Message()), dsbyte, rate)
    {
      hide Permutation, XorIn, Absorb, RateOk, LastBlock, Padded, FirstBytes;
      RateBound(rate);
      var zerosStart := |buf| + 1;
      var block := buf + [dsbyte] + Zeros(rate - zerosStart);
      block := block[rate - 1 := Flip(block[rate - 1])];
      LastBlockIs(buf, dsbyte, rate, block);
      PaddedIs(full, buf, dsbyte, rate);
      OneMore(ZEROS, full, block, rate);
      XorInGeneric(a, block);
      KeccakF1600(a);
      state := Squeezing;
      buf := CopyOutGeneric(a, rate);
      source, taken := a[..], 0;
      AtStart(source, rate);
    }

    /** Produces the next block of output. */
    method PermuteSqueezing()
      requires a.Length == 25 && RateOk(rate) && state == Squeezing && taken % rate == 0 && taken > 0
      requires a[..] == Turn(source, taken / rate - 1)
      modifies this`buf, a
      ensures Valid()
    {
      hide Permutation, RateOk, FirstBytes;
      RateBound(rate);
      KeccakF1600(a);
      buf := CopyOutGeneric(a, rate);
    }

    /** The next `n` bytes of output. */
    method Read(n: nat) returns (out: Bytes)
      requires Valid()
      modifies this, a
      ensures Valid() && state == Squeezing
      ensures old(state) == Absorbing ==> Absorbed(source, old(Message()), dsbyte, rate) && taken == n
      ensures old(state) == Squeezing ==> source == old(source) && taken == old(taken) + n
      ensures out == Squeeze(source, rate, taken - n, n)
      ensures IsOutput(source, dsbyte, rate, taken - n, out)
    {
      hide Permutation, RateOk, FirstBytes, Turn, Squeeze, Absorb, Padded, IsOutput;
      RateBound(rate);
      if state == Absorbing { PadAndPermute(); }
      ghost var from, src := taken, source;
      out := [];
      SqueezeNone(src, rate, from);
      while n - |out| > 0
        invariant Valid() && state == Squeezing && source == src && |out| <= n
        invariant taken == from + |out| && out == Squeeze(src, rate, from, |out|)
        decreases n - |out|
      {
        BufferSize(a[..], rate, taken);
        var k := if n - |out| < |buf| then n - |out| else |buf|;
        Chunk(src, a[..], rate, taken, k);
        Advance(taken, rate, k);
        SqueezeSplit(src, rate, from, |out|, k);
        out := out + buf[..k];
        buf := buf[k..];
        taken := taken + k;
        if |buf| == 0 { PermuteSqueezing(); }
      }
      OutputIsStandard(src, dsbyte, rate, from, n);
    }

    /** Appends the digest of what was written, leaving the hasher as it was. */
    method Sum(prefix: Bytes) returns (r: Bytes)
      requires Valid() && state == Absorbing
      ensures r == prefix + Squeeze(Absorb(ZEROS, Padded(Message(), dsbyte, rate), rate), rate, 0, outputLen)
      ensures IsDigest(Message(), dsbyte, rate, outputLen, prefix, r)
    {
      hide Permutation, RateOk, FirstBytes, Turn, Squeeze, Absorb, Padded, IsOutput, IsDigest;
      var dup := new Hasher(rate, outputLen, dsbyte);
      for i := 0 to 25
        modifies dup.a
        invariant forall k :: 0 <= k < i ==> dup.a[k] == a[k]
      {
        dup.a[i] := a[i];
      }
      assert dup.a[..] == a[..];
      dup.buf, dup.full := buf, full;
      var hash := dup.Read(dup.outputLen);
      DigestIsStandard(Message(), dsbyte, rate, outputLen, prefix);
      return prefix + hash;
    }
  }

  // --- the hash functions -----------------------------------------------------------------------------

  function Concat(data: seq<Bytes>): Bytes
  {
    if data == [] then [] else Concat(data[..|data| - 1]) + data[|data| - 1]
  }

  /** Everything written in turn, then the digest. */
  method Digest(h: Hasher, data: seq<Bytes>) returns (r: Bytes)
    requires h.Valid() && h.state == Absorbing && h.Message() == []
    modifies h, h.a
    ensures h.Valid() && |r| == h.outputLen && IsDigest(Concat(data), h.dsbyte, h.rate, h.outputLen, [], r)
  {
    hide RateOk, Squeeze, Absorb, Padded, IsDigest;
    for i := 0 to |data|
      invariant h.Valid() && h.state == Absorbing && h.Message() == Concat(data[..i])
    {
      var _ := h.Write(data[i]);
      assert data[..i + 1][..i] == data[..i];
    }
    assert data[..|data|] == data;
    r := h.Sum([]);
  }

  /** SHA3-224, SHA3-256, SHA3-384 and SHA3-512 of section 6.1 of FIPS 202. */
  method Sum(bits: nat, data: Bytes) returns (r: Bytes)
    requires bits == 224 || bits == 256 || bits == 384 || bits == 512
    ensures BitsOf(r) == SPONGE(BitsOf(data) + SHA3_SUFFIX, 1600 - 2 * bits, bits)
  {
    hide BitsOf, SPONGE, SuffixByte;
    var h := new Hasher(200 - 2 * (bits / 8), bits / 8, Octet(0x06));
    r := Digest(h, [data]);
    DomainBytes();
    assert Concat([data]) == data by { OneConcat(data); }
    NoBytes();
  }

  lemma OneConcat(data: Bytes)
    ensures Concat([data]) == data
  {
    assert [data][..0] == [];
    assert Concat([data][..0]) == [];
  }

  /** Keccak-256 of the repository's own digests: no suffix. */
  method Keccak256(data: seq<Bytes>) returns (r: Bytes)
    ensures |r| == 32 && BitsOf(r) == SPONGE(BitsOf(Concat(data)), 1088, 256)
  {
    hide BitsOf, SPONGE, SuffixByte;
    var h := new Hasher(136, 32, Octet(0x01));
    r := Digest(h, data);
    DomainBytes();
    NoBytes();
    assert BitsOf(Concat(data)) + KECCAK_SUFFIX == BitsOf(Concat(data));
  }

  /** SHAKE128 and SHAKE256 of section 6.2 of FIPS 202, for output of any length. */
  method ShakeSum(strength: nat, data: Bytes, n: nat) returns (r: Bytes)
    requires strength == 128 || strength == 256
    ensures BitsOf(r) == SPONGE(BitsOf(data) + SHAKE_SUFFIX, 1600 - 2 * strength, 8 * n)
  {
    hide BitsOf, SPONGE, SuffixByte, Padded, Absorb, Squeeze;
    var h := new Hasher(200 - 2 * (strength / 8), 0, Octet(0x1f));
    var _ := h.Write(data);
    assert h.Message() == data;
    r := h.Read(n);
    DomainBytes();
  }
}
