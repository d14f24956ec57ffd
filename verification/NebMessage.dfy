/** The wire format of a message: a 36-byte header and its data. */
module NebMessage {
  import opened Prelude
  type byte = b: nat | b < 256
  type Bytes = seq<byte>
  type u32 = n: nat | n < 0x1_0000_0000

  const HEADER_LENGTH := 36
  const MAX_DATA_LENGTH := 512 * 1024 * 1024
  const MAX_NAME_LENGTH := 12
  const MAGIC_NUMBER: Bytes := [0x4e, 0x45, 0x42, 0x31]

  datatype Error = InsufficientMessageHeaderLength | InsufficientMessageDataLength | InvalidMagicNumber |
                   InvalidHeaderCheckSum | InvalidDataCheckSum | ExceedMaxDataLength | ExceedMaxMessageNameLength
  datatype Result<T> = Ok(value: T) | Err(error: Error)

  /** Stands for the CRC-32 checksum; nothing about it is used. */
  type Crc = Bytes -> u32

  // --- big-endian numbers --------------------------------------------------------------------

  function FromUint32(n: u32): (r: Bytes)
    ensures |r| == 4
  {
    [n / 256 / 256 / 256, n / 256 / 256 % 256, n / 256 % 256, n % 256]
  }

  function Uint32(b: Bytes): u32
    requires |b| == 4
  {
    var b0: int, b1: int, b2: int, b3: int := b[0], b[1], b[2], b[3];
    ((b0 * 256 + b1) * 256 + b2) * 256 + b3
  }

  lemma BigEndian(b: Bytes)
    requires |b| == 4
    ensures Uint32(b) as int == 16777216 * (b[0] as int) + 65536 * (b[1] as int) + 256 * (b[2] as int) + b[3] as int
  {
  }

  lemma Uint32RoundTrip(n: u32)
    ensures Uint32(FromUint32(n)) == n
  {
  }

  // --- fields of a header -----------------------------------------------------------------------

  function ChainID(content: Bytes): u32
    requires |content| >= HEADER_LENGTH
  {
    Uint32(content[4..8])
  }

  function Reserved(content: Bytes): Bytes
    requires |content| >= HEADER_LENGTH
  {
    content[8..11]
  }

  function Version(content: Bytes): byte
    requires |content| >= HEADER_LENGTH
  {
    content[11]
  }

  /** What precedes the first zero byte. */
  function UpToZero(b: Bytes): Bytes
  {
    if b == [] || b[0] == 0 then [] else [b[0]] + UpToZero(b[1..])
  }

  function MessageName(content: Bytes): Bytes
    requires |content| >= HEADER_LENGTH
  {
    UpToZero(content[12..24])
  }

  function DataLength(content: Bytes): u32
    requires |content| >= HEADER_LENGTH
  {
    Uint32(content[24..28])
  }

  function DataCheckSum(content: Bytes): u32
    requires |content| >= HEADER_LENGTH
  {
    Uint32(content[28..32])
  }

  function HeaderCheckSum(content: Bytes): u32
    requires |content| >= HEADER_LENGTH
  {
    Uint32(content[32..36])
  }

  function Data(content: Bytes): Bytes
    requires |content| >= HEADER_LENGTH
  {
    content[36..]
  }

  function VerifyHeader(crc: Crc, content: Bytes): Option<Error>
    requires |content| >= HEADER_LENGTH
  {
    if content[..4] != MAGIC_NUMBER then Some(InvalidMagicNumber)
    else if crc(content[..32]) != HeaderCheckSum(content) then Some(InvalidHeaderCheckSum)
    else if DataLength(content) > MAX_DATA_LENGTH then Some(ExceedMaxDataLength)
    else None
  }

  function VerifyData(crc: Crc, content: Bytes): Option<Error>
    requires |content| >= HEADER_LENGTH
  {
    if crc(Data(content)) != DataCheckSum(content) then Some(InvalidDataCheckSum) else None
  }

  function ParseNebMessage(crc: Crc, data: Bytes): (r: Result<Bytes>)
    ensures r.Ok? ==> |r.value| == HEADER_LENGTH
  {
    if |data| < HEADER_LENGTH then Err(InsufficientMessageHeaderLength)
    else
      var e := VerifyHeader(crc, data[..HEADER_LENGTH]);
      if e.Some? then Err(e.value) else Ok(data[..HEADER_LENGTH])
  }

  /** Appends the message's data; the length of `data` is compared as a 32-bit number. */
  function ParseMessageData(crc: Crc, header: Bytes, data: Bytes): Result<Bytes>
    requires |header| == HEADER_LENGTH
  {
    if |data| % 0x1_0000_0000 < DataLength(header) then Err(InsufficientMessageDataLength)
    else
      assert |data| >= DataLength(header) by { Shorter(|data|); }
      var content := header + data[..DataLength(header)];
      var e := VerifyData(crc, content);
      if e.Some? then Err(e.value) else Ok(content)
  }

  lemma Shorter(n: nat)
    ensures n % 0x1_0000_0000 <= n
  {
  }

  // --- building a message -----------------------------------------------------------------------

  /** `content` with `src` copied into the range, as far as both reach. */
  function Copied(content: Bytes, lo: nat, hi: nat, src: Bytes): (r: Bytes)
    requires lo <= hi <= |content|
    ensures |r| == |content|
  {
    var n := if |src| < hi - lo then |src| else hi - lo;
    content[..lo] + src[..n] + content[lo + n..]
  }

  function Blank(n: nat): (r: Bytes)
    ensures |r| == n && forall i :: 0 <= i < n ==> r[i] == 0
  {
    seq<byte>(n, _ => 0)
  }

  /** Filled to the length with zeros. */
  function Fill(b: Bytes, n: nat): (r: Bytes)
    requires |b| <= n
    ensures |r| == n
  {
    b + Blank(n - |b|)
  }

  /** The header before its checksum. */
  function Front(chainID: u32, reserved: Bytes, version: byte, name: Bytes, length: u32, sum: u32): (r: Bytes)
    requires |reserved| <= 3 && |name| <= MAX_NAME_LENGTH
    ensures |r| == 32
  {
    MAGIC_NUMBER + FromUint32(chainID) + Fill(reserved, 3) + [version] + Fill(name, 12) + FromUint32(length) + FromUint32(sum)
  }

  /** A message with these fields. */
  function Message(crc: Crc, chainID: u32, reserved: Bytes, version: byte, name: Bytes, data: Bytes): Bytes
    requires |reserved| <= 3 && |name| <= MAX_NAME_LENGTH && |data| <= MAX_DATA_LENGTH
  {
    var front := Front(chainID, reserved, version, name, |data|, crc(data));
    front + FromUint32(crc(front)) + data
  }

  method NewNebMessage(crc: Crc, chainID: u32, reserved: Bytes, version: byte, name: Bytes, data: Bytes) returns (r: Result<Bytes>)
    ensures r == if |data| > 536870912 then Err(ExceedMaxDataLength)
                 else if |name| > 12 then Err(ExceedMaxMessageNameLength)
                 else Ok(Message(crc, chainID, if |reserved| > 3 then reserved[..3] else reserved, version, name, data))
  {
    if |data| > MAX_DATA_LENGTH { return Err(ExceedMaxDataLength); }
    if |name| > MAX_NAME_LENGTH { return Err(ExceedMaxMessageNameLength); }
    hide FromUint32, Copied, Fill, Blank, Front;
    ghost var kept := if |reserved| > 3 then reserved[..3] else reserved;
    var content := Blank(HEADER_LENGTH + |data|);
    content := CopyIdentity(content, chainID, reserved, version);
    content := CopyDescription(content, name, |data|, crc(data), FirstPart(chainID, kept, version));
    ghost var front := Front(chainID, kept, version, name, |data|, crc(data));
    FrontIs(chainID, kept, version, name, |data|, crc(data));
    assert content[..32] == front;
    CopyBlank(front, 4 + |data|, 4, FromUint32(crc(front)));
    content := Copied(content, 32, 36, FromUint32(crc(content[..32])));
    CopyBlank(front + FromUint32(crc(front)), |data|, |data|, data);
    content := Copied(content, 36, |content|, data);
    return Ok(content);
  }

  function FirstPart(chainID: u32, reserved: Bytes, version: byte): (r: Bytes)
    requires |reserved| <= 3
    ensures |r| == 12
  {
    MAGIC_NUMBER + FromUint32(chainID) + Fill(reserved, 3) + [version]
  }

  lemma FrontIs(chainID: u32, reserved: Bytes, version: byte, name: Bytes, length: u32, sum: u32)
    requires |reserved| <= 3 && |name| <= MAX_NAME_LENGTH
    ensures Front(chainID, reserved, version, name, length, sum) ==
            FirstPart(chainID, reserved, version) + Fill(name, 12) + FromUint32(length) + FromUint32(sum)
  {
  }

  /** Magic number, chain, reserved bytes and version. */
  method CopyIdentity(blank: Bytes, chainID: u32, reserved: Bytes, version: byte) returns (content: Bytes)
    requires |blank| >= HEADER_LENGTH && blank == Blank(|blank|)
    ensures content == FirstPart(chainID, if |reserved| > 3 then reserved[..3] else reserved, version) + Blank(|blank| - 12)
  {
    hide FromUint32, Copied, Fill, Blank;
    ghost var n, kept := |blank|, if |reserved| > 3 then reserved[..3] else reserved;
    assert blank == [] + Blank(n);
    CopyBlank([], n, 4, MAGIC_NUMBER);
    content := Copied(blank, 0, 4, MAGIC_NUMBER);
    assert [] + Fill(MAGIC_NUMBER, 4) == MAGIC_NUMBER;
    CopyBlank(MAGIC_NUMBER, n - 4, 4, FromUint32(chainID));
    content := Copied(content, 4, 8, FromUint32(chainID));
    ghost var done := MAGIC_NUMBER + FromUint32(chainID);
    CopyBlank(done, n - 8, 3, reserved);
    content := Copied(content, 8, 11, reserved);
    SetBlank(done + Fill(kept, 3), n - 11, version);
    content := content[11 := version];
  }

  /** Name, data length and data checksum. */
  method CopyDescription(before: Bytes, name: Bytes, length: u32, sum: u32, ghost first: Bytes) returns (content: Bytes)
    requires |before| >= HEADER_LENGTH && |first| == 12 && before == first + Blank(|before| - 12) && |name| <= MAX_NAME_LENGTH
    ensures content == first + Fill(name, 12) + FromUint32(length) + FromUint32(sum) + Blank(|before| - 32)
  {
    hide FromUint32, Copied, Fill, Blank;
    ghost var n := |before|;
    CopyBlank(first, n - 12, 12, name);
    content := Copied(before, 12, 24, name);
    CopyBlank(first + Fill(name, 12), n - 24, 4, FromUint32(length));
    content := Copied(content, 24, 28, FromUint32(length));
    CopyBlank(first + Fill(name, 12) + FromUint32(length), n - 28, 4, FromUint32(sum));
    content := Copied(content, 28, 32, FromUint32(sum));
  }

  lemma CopyBlank(done: Bytes, k: nat, w: nat, src: Bytes)
    requires w <= k
    ensures |done + Blank(k)| == |done| + k
    ensures Copied(done + Blank(k), |done|, |done| + w, src) == (done + Fill(if |src| > w then src[..w] else src, w)) + Blank(k - w)
    ensures |src| == w ==> Fill(src, w) == src
    ensures k == w ==> (done + Fill(if |src| > w then src[..w] else src, w)) + Blank(k - w) == done + Fill(if |src| > w then src[..w] else src, w)
  {
  }

  lemma SetBlank(done: Bytes, k: nat, v: byte)
    requires k > 0
    ensures (done + Blank(k))[|done| := v] == (done + [v]) + Blank(k - 1)
  {
  }

  // --- reading it back -------------------------------------------------------------------------

  lemma {:induction false} NameRoundTrip(name: Bytes, k: nat)
    ensures UpToZero(name + Blank(k)) == name <==> 0 !in name
    decreases |name|
  {
    if name != [] {
      assert name + Blank(k) == [name[0]] + (name[1..] + Blank(k));
      NameRoundTrip(name[1..], k);
      NoLonger(name[1..] + Blank(k));
    }
  }

  lemma {:induction false} NoLonger(b: Bytes)
    ensures 0 !in UpToZero(b)
  {
    if b != [] && b[0] != 0 { NoLonger(b[1..]); }
  }

  /** Every field of a built message reads back, the name exactly when it has no zero byte. */
  lemma FieldsRoundTrip(crc: Crc, chainID: u32, reserved: Bytes, version: byte, name: Bytes, data: Bytes)
    requires |reserved| <= 3 && |name| <= MAX_NAME_LENGTH && |data| <= MAX_DATA_LENGTH
    ensures var m := Message(crc, chainID, reserved, version, name, data);
            |m| == HEADER_LENGTH + |data| && ChainID(m) == chainID && (Reserved(m) == reserved <==> |reserved| == 3) && Version(m) == version &&
            (MessageName(m) == name <==> 0 !in name) && DataLength(m) == |data| && DataCheckSum(m) == crc(data) && Data(m) == data &&
            HeaderCheckSum(m) == crc(m[..32]) && m[..4] == MAGIC_NUMBER
  {
    hide FromUint32, Uint32, UpToZero;
    var front := Front(chainID, reserved, version, name, |data|, crc(data));
    var m := Message(crc, chainID, reserved, version, name, data);
    assert m[..32] == front;
    assert m[4..8] == FromUint32(chainID);
    assert m[8..11] == Fill(reserved, 3);
    assert m[12..24] == Fill(name, 12);
    assert m[24..28] == FromUint32(|data|);
    assert m[28..32] == FromUint32(crc(data));
    assert m[32..36] == FromUint32(crc(front));
    Uint32RoundTrip(chainID);
    Uint32RoundTrip(|data|);
    Uint32RoundTrip(crc(data));
    Uint32RoundTrip(crc(front));
    NameRoundTrip(name, 12 - |name|);
    assert |reserved| == 3 ==> Fill(reserved, 3) == reserved;
  }

  /** A built message passes both checks and comes back whole, whatever follows it. */
  lemma ParseRoundTrip(crc: Crc, chainID: u32, reserved: Bytes, version: byte, name: Bytes, data: Bytes, more: Bytes)
    requires |reserved| <= 3 && |name| <= MAX_NAME_LENGTH && |data| <= MAX_DATA_LENGTH
    requires |data + more| < 0x1_0000_0000
    ensures var m := Message(crc, chainID, reserved, version, name, data);
            |m| >= HEADER_LENGTH && ParseNebMessage(crc, m + more) == Ok(m[..HEADER_LENGTH]) &&
            ParseMessageData(crc, m[..HEADER_LENGTH], data + more) == Ok(m)
  {
    hide Message, Uint32;
    FieldsRoundTrip(crc, chainID, reserved, version, name, data);
    var m := Message(crc, chainID, reserved, version, name, data);
    var h := m[..HEADER_LENGTH];
    assert (m + more)[..HEADER_LENGTH] == h;
    SameFields(m);
    assert h + (data + more)[..|data|] == m;
  }

  lemma SameFields(m: Bytes)
    requires |m| >= HEADER_LENGTH
    ensures var h := m[..HEADER_LENGTH];
            h[..4] == m[..4] && h[..32] == m[..32] && ChainID(h) == ChainID(m) && DataLength(h) == DataLength(m) &&
            DataCheckSum(h) == DataCheckSum(m) && HeaderCheckSum(h) == HeaderCheckSum(m)
  {
    var h := m[..HEADER_LENGTH];
    assert h[4..8] == m[4..8] && h[24..28] == m[24..28] && h[28..32] == m[28..32] && h[32..36] == m[32..36];
    assert h[..4] == m[..4] && h[..32] == m[..32];
  }
}
