/** The protobuf encoding of a trie node: a repeated bytes field numbered one. */
module TrieCodec {
  import opened TrieTree
  import opened TrieStore

  const TAG: byte := 0xa

  datatype DecodeError = IntOverflow | UnexpectedEOF | InvalidLength | WrongField
  datatype Decoded<T> = Done(value: T) | Failed(error: DecodeError)

  // --- numbers, seven bits at a time ------------------------------------------------------------

  function Varint(v: nat): (r: Bytes)
    ensures |r| > 0
  {
    if v < 128 then [v] else [v % 128 + 128] + Varint(v / 128)
  }

  function Pow2(n: nat): (p: nat)
    ensures p > 0
  {
    if n == 0 then 1 else 2 * Pow2(n - 1)
  }

  lemma {:induction false} PowSeven(n: nat)
    ensures Pow2(n + 7) == 128 * Pow2(n)
  {
    assert Pow2(n + 7) == 2 * Pow2(n + 6) && Pow2(n + 6) == 2 * Pow2(n + 5) && Pow2(n + 5) == 2 * Pow2(n + 4);
    assert Pow2(n + 4) == 2 * Pow2(n + 3) && Pow2(n + 3) == 2 * Pow2(n + 2) && Pow2(n + 2) == 2 * Pow2(n + 1);
  }

  const LIMIT: nat := 0x1_0000_0000_0000_0000

  /** Reads a number of at most ten bytes, keeping its low 64 bits; `shift` bits have been read. */
  function Read(data: Bytes, shift: nat): (r: Decoded<(nat, Bytes)>)
    ensures r.Done? ==> |r.value.1| < |data| && r.value.1 == data[|data| - |r.value.1|..]
    decreases |data|
  {
    if shift >= 64 then Failed(IntOverflow)
    else if data == [] then Failed(UnexpectedEOF)
    else
      var b := data[0];
      if b < 128 then Done(((b * Pow2(shift)) % LIMIT, data[1..]))
      else
        var r := Read(data[1..], shift + 7);
        if r.Failed? then r else Done((((b - 128) * Pow2(shift)) % LIMIT + r.value.0, r.value.1))
  }

  /** A written number is read back. */
  lemma {:induction false} VarintRoundTrip(v: nat, rest: Bytes, shift: nat)
    requires v * Pow2(shift) < LIMIT && shift < 64 && (shift == 0 || v > 0)
    ensures Read(Varint(v) + rest, shift) == Done((v * Pow2(shift), rest))
    decreases v
  {
    hide Pow2, Varint, Read;
    VarintStep(v);
    if v < 128 {
      ReadByte(v, rest, shift);
      Kept(v * Pow2(shift));
    } else {
      MoreBits(v, shift);
      VarintRoundTrip(v / 128, rest, shift + 7);
      assert Varint(v) + rest == [v % 128 + 128] + (Varint(v / 128) + rest);
      ReadByte(v % 128 + 128, Varint(v / 128) + rest, shift);
    }
  }

  lemma MoreBits(v: nat, shift: nat)
    requires v >= 128 && v * Pow2(shift) < LIMIT
    ensures v / 128 > 0 && (v / 128) * Pow2(shift + 7) < LIMIT && shift + 7 < 64
    ensures ((v % 128) * Pow2(shift)) % LIMIT + (v / 128) * Pow2(shift + 7) == v * Pow2(shift)
  {
    hide Pow2;
    PowSeven(shift);
    Split(v, Pow2(shift));
    SmallShift(v / 128, shift + 7);
    Kept((v % 128) * Pow2(shift));
  }

  lemma Kept(n: nat)
    requires n < LIMIT
    ensures n % LIMIT == n
  {
  }

  lemma VarintStep(v: nat)
    ensures Varint(v) == if v < 128 then [v] else [v % 128 + 128] + Varint(v / 128)
  {
  }

  lemma ReadByte(b: byte, rest: Bytes, shift: nat)
    requires shift < 64
    ensures Read([b] + rest, shift) ==
            if b < 128 then Done(((b * Pow2(shift)) % LIMIT, rest)) else Plus(((b - 128) * Pow2(shift)) % LIMIT, Read(rest, shift + 7))
  {
  }

  lemma Split(v: nat, p: nat)
    requires p > 0
    ensures (v % 128) * p + (v / 128) * (128 * p) == v * p && (v % 128) * p <= v * p && (v / 128) * (128 * p) <= v * p
  {
  }

  /** A number that leaves room has not used up its shifts. */
  lemma SmallShift(v: nat, shift: nat)
    requires v > 0 && v * Pow2(shift) < LIMIT
    ensures shift < 64
  {
    if shift >= 64 {
      PowMore(64, shift);
      Pow64();
      AtLeast(v, Pow2(shift));
    }
  }

  lemma AtLeast(v: nat, p: nat)
    requires v > 0
    ensures v * p >= p
  {
  }

  lemma {:induction false} PowMore(a: nat, b: nat)
    requires a <= b
    ensures Pow2(a) <= Pow2(b)
    decreases b
  {
    if a < b { PowMore(a, b - 1); }
  }

  lemma PowNext(n: nat)
    ensures Pow2(n + 1) == 2 * Pow2(n)
  {
  }

  lemma Pow64()
    ensures Pow2(64) == LIMIT
  {
    hide Pow2;
    Pow0();
    PowSeven(0);
    PowSeven(7);
    PowSeven(14);
    PowSeven(21);
    PowSeven(28);
    PowSeven(35);
    PowSeven(42);
    PowSeven(49);
    PowSeven(56);
    PowNext(63);
  }

  // --- nodes ---------------------------------------------------------------------------------------

  function Frame(b: Bytes): Bytes
  {
    [TAG] + Varint(|b|) + b
  }

  function Encode(vals: NodeVal): Bytes
  {
    if vals == [] then [] else Frame(vals[0]) + Encode(vals[1..])
  }

  lemma {:induction false} EncodeMore(vals: NodeVal, b: Bytes)
    ensures Encode(vals + [b]) == Encode(vals) + Frame(b)
    decreases |vals|
  {
    hide Frame;
    if vals == [] {
      assert Encode([b]) == Frame(b) + Encode([]);
    } else {
      assert (vals + [b])[1..] == vals[1..] + [b];
      EncodeMore(vals[1..], b);
    }
  }

  method EncodeVarint(data: array<byte>, offset: nat, v: nat) returns (next: nat)
    requires offset + |Varint(v)| <= data.Length
    modifies data
    ensures next == offset + |Varint(v)| && data[offset..next] == Varint(v)
    ensures forall i :: 0 <= i < data.Length && !(offset <= i < next) ==> data[i] == old(data[i])
  {
    hide Varint;
    var x, at := v, offset;
    ghost var out: Bytes := [];
    while x >= 128
      invariant at == offset + |out| && Varint(v) == out + Varint(x)
      invariant forall i :: 0 <= i < |out| ==> data[offset + i] == out[i]
      invariant forall i :: 0 <= i < data.Length && !(offset <= i < at) ==> data[i] == old(data[i])
      decreases x
    {
      VarintStep(x);
      data[at] := x % 128 + 128;
      out := out + [x % 128 + 128];
      x := x / 128;
      at := at + 1;
      assert Varint(v) == out + Varint(x);
    }
    VarintStep(x);
    data[at] := x;
    return at + 1;
  }

  method Sov(x: nat) returns (n: nat)
    ensures n == |Varint(x)|
  {
    var y := x;
    n := 1;
    while y >= 128
      invariant n + |Varint(y)| == |Varint(x)| + 1
      decreases y
    {
      n := n + 1;
      y := y / 128;
    }
  }

  method Size(vals: NodeVal) returns (n: nat)
    ensures n == |Encode(vals)|
  {
    n := 0;
    for k := 0 to |vals|
      invariant n == |Encode(vals[..k])|
    {
      EncodeMore(vals[..k], vals[k]);
      assert vals[..k + 1] == vals[..k] + [vals[k]];
      var l := |vals[k]|;
      var sov := Sov(l);
      n := n + 1 + l + sov;
    }
    assert vals[..|vals|] == vals;
  }

  method WriteFrame(buffer: array<byte>, i: nat, b: Bytes) returns (next: nat)
    requires i + |Frame(b)| <= buffer.Length
    modifies buffer
    ensures next == i + |Frame(b)| && buffer[i..next] == Frame(b) && buffer[..i] == old(buffer[..i])
  {
    hide Varint;
    buffer[i] := TAG;
    var at := EncodeVarint(buffer, i + 1, |b|);
    ghost var head := buffer[..at];
    assert head[i..] == [TAG] + Varint(|b|);
    for j := 0 to |b|
      invariant buffer[..at] == head && buffer[at..at + j] == b[..j]
    {
      buffer[at + j] := b[j];
      assert buffer[at..at + j + 1] == b[..j + 1];
    }
    assert b[..|b|] == b;
    next := at + |b|;
    assert buffer[i..next] == buffer[..at][i..] + buffer[at..next];
    assert buffer[..i] == head[..i];
  }

  /** Writes the fields one after another into a buffer of exactly their size. */
  method Marshal(vals: NodeVal) returns (data: Bytes)
    ensures data == Encode(vals)
  {
    hide Frame;
    var size := Size(vals);
    var buffer := new byte[size];
    var i := 0;
    for k := 0 to |vals|
      invariant i == |Encode(vals[..k])| && i + |Encode(vals[k..])| == size && buffer[..i] == Encode(vals[..k])
    {
      EncodeMore(vals[..k], vals[k]);
      assert vals[..k + 1] == vals[..k] + [vals[k]];
      assert vals[k..][1..] == vals[k + 1..];
      var next := WriteFrame(buffer, i, vals[k]);
      assert buffer[..next] == buffer[..i] + buffer[i..next];
      i := next;
    }
    assert vals[..|vals|] == vals;
    return buffer[..i];
  }

  // --- reading nodes back ----------------------------------------------------------------------------

  /** Field one with a length: the low 32 bits of the number above the wire type are compared. */
  predicate IsVal(wire: nat)
  {
    wire % 8 == 2 && (wire / 8) % 0x1_0000_0000 == 1
  }

  /** The tag read is taken for the field's exactly when its low 35 bits are those of field one, length-delimited. */
  lemma TagExact(wire: nat)
    ensures IsVal(wire) <==> wire % 0x8_0000_0000 == 10
  {
    var q, r := wire / 0x8_0000_0000, wire % 0x8_0000_0000;
    assert wire / 8 == q * 0x1_0000_0000 + r / 8 && wire % 8 == r % 8;
    assert (wire / 8) % 0x1_0000_0000 == r / 8;
  }

  function Decode(data: Bytes): Decoded<NodeVal>
    decreases |data|
  {
    if data == [] then Done([]) else
      var tag := Read(data, 0);
      if tag.Failed? then Failed(tag.error)
      else if !IsVal(tag.value.0) then Failed(WrongField)
      else
        var len := Read(tag.value.1, 0);
        if len.Failed? then Failed(len.error)
        else if len.value.0 >= 0x8000_0000_0000_0000 then Failed(InvalidLength)
        else if len.value.0 > |len.value.1| then Failed(UnexpectedEOF)
        else Prepend([len.value.1[..len.value.0]], Decode(len.value.1[len.value.0..]))
  }

  function Prepend(vals: NodeVal, d: Decoded<NodeVal>): Decoded<NodeVal>
  {
    if d.Failed? then d else Done(vals + d.value)
  }

  lemma DecodeFrame(b: Bytes, rest: Bytes)
    requires |b| < 0x8000_0000_0000_0000
    ensures Decode(Frame(b) + rest) == Prepend([b], Decode(rest))
  {
    hide Varint, Read, Pow2, IsVal;
    var tail := Varint(|b|) + (b + rest);
    assert Frame(b) + rest == [TAG] + tail;
    ReadTag(tail);
    Pow0();
    VarintRoundTrip(|b|, b + rest, 0);
    assert (b + rest)[..|b|] == b && (b + rest)[|b|..] == rest;
  }

  /** What was encoded decodes to itself. */
  lemma {:induction false} RoundTrip(vals: NodeVal)
    requires forall i :: 0 <= i < |vals| ==> |vals[i]| < 0x8000_0000_0000_0000
    ensures Decode(Encode(vals)) == Done(vals)
    decreases |vals|
  {
    hide Frame, Decode;
    NothingDecoded();
    if vals != [] {
      RoundTrip(vals[1..]);
      DecodeFrame(vals[0], Encode(vals[1..]));
      assert [vals[0]] + vals[1..] == vals;
    }
  }

  lemma NothingDecoded()
    ensures Decode([]) == Done([])
  {
  }

  lemma Pow0()
    ensures Pow2(0) == 1
  {
  }

  lemma ReadTag(tail: Bytes)
    ensures Read([TAG] + tail, 0) == Done((0xa, tail)) && IsVal(0xa)
  {
  }

  /** Adds what was read before to what follows. */
  function Plus(n: nat, d: Decoded<(nat, Bytes)>): Decoded<(nat, Bytes)>
  {
    if d.Failed? then d else Done((n + d.value.0, d.value.1))
  }

  method ReadVarint(data: Bytes, start: nat) returns (r: Decoded<(nat, nat)>)
    requires start <= |data|
    ensures var d := Read(data[start..], 0);
            if d.Failed? then r == Failed(d.error)
            else r.Done? && r.value.0 == d.value.0 && start < r.value.1 <= |data| && data[r.value.1..] == d.value.1
  {
    hide Pow2, Read;
    var i, shift, n := start, 0, 0;
    while true
      invariant start <= i <= |data| && n >= 0
      invariant Read(data[start..], 0) == Plus(n, Read(data[i..], shift))
      decreases |data| - i
    {
      ReadStep(data, i, shift);
      if shift >= 64 { return Failed(IntOverflow); }
      if i >= |data| { return Failed(UnexpectedEOF); }
      var b := data[i];
      i := i + 1;
      if b < 128 {
        n := n + (b * Pow2(shift)) % LIMIT;
        return Done((n, i));
      }
      n := n + ((b - 128) * Pow2(shift)) % LIMIT;
      shift := shift + 7;
    }
  }

  lemma ReadStep(data: Bytes, i: nat, shift: nat)
    requires i <= |data|
    ensures Read(data[i..], shift) ==
            if shift >= 64 then Failed(IntOverflow)
            else if i == |data| then Failed(UnexpectedEOF)
            else if data[i] < 128 then Done(((data[i] * Pow2(shift)) % LIMIT, data[i + 1..]))
            else Plus(((data[i] - 128) * Pow2(shift)) % LIMIT, Read(data[i + 1..], shift + 7))
  {
  }

  method Unmarshal(data: Bytes) returns (r: Decoded<NodeVal>)
    ensures r == Decode(data)
  {
    hide Read;
    var i := 0;
    var vals: NodeVal := [];
    assert data[0..] == data;
    PrependNothing(Decode(data));
    while i < |data|
      invariant 0 <= i <= |data| && Decode(data) == Prepend(vals, Decode(data[i..]))
    {
      var tag := ReadVarint(data, i);
      if tag.Failed? { return Failed(tag.error); }
      if !IsVal(tag.value.0) { return Failed(WrongField); }
      var len := ReadVarint(data, tag.value.1);
      if len.Failed? { return Failed(len.error); }
      if len.value.0 >= 0x8000_0000_0000_0000 { return Failed(InvalidLength); }
      var post := len.value.1 + len.value.0;
      if post > |data| { return Failed(UnexpectedEOF); }
      ghost var rest := data[len.value.1..];
      assert rest[..len.value.0] == data[len.value.1..post] && rest[len.value.0..] == data[post..];
      PrependTwice(vals, data[len.value.1..post], Decode(data[post..]));
      vals := vals + [data[len.value.1..post]];
      i := post;
    }
    assert data[i..] == [] && vals + [] == vals;
    return Done(vals);
  }

  lemma PrependNothing(d: Decoded<NodeVal>)
    ensures Prepend([], d) == d
  {
    if d.Done? { assert [] + d.value == d.value; }
  }

  lemma PrependTwice(vals: NodeVal, b: Bytes, d: Decoded<NodeVal>)
    ensures Prepend(vals, Prepend([b], d)) == Prepend(vals + [b], d)
  {
    if d.Done? { assert vals + ([b] + d.value) == (vals + [b]) + d.value; }
  }

  // --- different nodes have different encodings --------------------------------------------------------

  lemma {:induction false} VarintApart(v: nat, w: nat, x: Bytes, y: Bytes)
    requires Varint(v) + x == Varint(w) + y
    ensures v == w && x == y
    decreases v
  {
    var a, b := Varint(v) + x, Varint(w) + y;
    assert a[0] == Varint(v)[0] && b[0] == Varint(w)[0];
    if v < 128 {
      assert a[1..] == x && b[1..] == y;
    } else {
      assert a[1..] == Varint(v / 128) + x && b[1..] == Varint(w / 128) + y;
      VarintApart(v / 128, w / 128, x, y);
    }
  }

  lemma {:induction false} EncodeInjective(a: NodeVal, b: NodeVal)
    requires Encode(a) == Encode(b)
    ensures a == b
    decreases |a|
  {
    hide Varint;
    if a != [] && b != [] {
      var x, y := a[0] + Encode(a[1..]), b[0] + Encode(b[1..]);
      assert Encode(a) == [TAG] + (Varint(|a[0]|) + x) && Encode(b) == [TAG] + (Varint(|b[0]|) + y);
      assert Encode(a)[1..] == Varint(|a[0]|) + x && Encode(b)[1..] == Varint(|b[0]|) + y;
      VarintApart(|a[0]|, |b[0]|, x, y);
      assert x[..|a[0]|] == a[0] && y[..|a[0]|] == b[0] && x[|a[0]|..] == Encode(a[1..]) && y[|a[0]|..] == Encode(b[1..]);
      EncodeInjective(a[1..], b[1..]);
      assert a == [a[0]] + a[1..] && b == [b[0]] + b[1..];
    }
  }

  /** A digest without collisions on bytes gives a node hash without collisions. */
  lemma EncodedHasher(digest: Bytes -> Hash)
    requires (forall x, y :: digest(x) == digest(y) ==> x == y) && forall x :: digest(x) != []
    ensures Sound(vals => digest(Encode(vals)))
  {
    hide Encode;
    forall a, b | digest(Encode(a)) == digest(Encode(b)) ensures a == b { EncodeInjective(a, b); }
  }
}
