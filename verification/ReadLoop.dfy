/** Reassembling messages from reads of any size, against parsing the whole stream at once. */
module ReadLoop {
  import opened Prelude
  import opened NebMessage

  /** Whether handling the last of these delivered messages ends the connection. */
  type Handler = seq<Bytes> -> bool

  /** What a parse has come to: closed, or waiting for more with these bytes not yet consumed. */
  datatype Outcome =
    | Closed(delivered: seq<Bytes>)
    | Waiting(delivered: seq<Bytes>, message: Option<Bytes>, buffer: Bytes)

  const READ_SIZE := 1024 * 4

  // --- parsing a whole stream -----------------------------------------------------------------

  /** Takes one frame after another from the front of the stream. */
  ghost function Parse(crc: Crc, chain: u32, handler: Handler, stream: Bytes, delivered: seq<Bytes>): Outcome
    decreases |stream|, 1
  {
    if |stream| < HEADER_LENGTH then Waiting(delivered, None, stream)
    else
      var header := stream[..HEADER_LENGTH];
      if VerifyHeader(crc, header) != None || ChainID(header) != chain then Closed(delivered)
      else ParseBody(crc, chain, handler, header, stream[HEADER_LENGTH..], delivered)
  }

  /** The rest of a frame whose header has been read. */
  ghost function ParseBody(crc: Crc, chain: u32, handler: Handler, header: Bytes, stream: Bytes, delivered: seq<Bytes>): Outcome
    requires |header| == HEADER_LENGTH
    decreases |stream|, 2
  {
    var n := DataLength(header);
    if |stream| < n then Waiting(delivered, Some(header), stream)
    else
      var content := header + stream[..n];
      if VerifyData(crc, content) != None then Closed(delivered)
      else if handler(delivered + [content]) then Closed(delivered + [content])
      else Parse(crc, chain, handler, stream[n..], delivered + [content])
  }

  /** Where a parse stands once more bytes have come in. */
  ghost function Resume(crc: Crc, chain: u32, handler: Handler, o: Outcome, more: Bytes): Outcome
    requires o.Waiting? && o.message.Some? ==> |o.message.value| == HEADER_LENGTH
  {
    match o
    case Closed(_) => o
    case Waiting(delivered, None, buffer) => Parse(crc, chain, handler, buffer + more, delivered)
    case Waiting(delivered, Some(header), buffer) => ParseBody(crc, chain, handler, header, buffer + more, delivered)
  }

  /** A header that is kept has been checked. */
  ghost predicate Sound(crc: Crc, chain: u32, o: Outcome)
  {
    o.Waiting? ==>
      (o.message.None? ==> |o.buffer| < HEADER_LENGTH) &&
      (o.message.Some? ==> |o.message.value| == HEADER_LENGTH && VerifyHeader(crc, o.message.value) == None && |o.buffer| < DataLength(o.message.value))
  }

  lemma {:induction false} ParseSound(crc: Crc, chain: u32, handler: Handler, stream: Bytes, delivered: seq<Bytes>)
    ensures Sound(crc, chain, Parse(crc, chain, handler, stream, delivered))
    decreases |stream|, 1
  {
    hide VerifyHeader, ChainID, DataLength, VerifyData;
    if |stream| >= HEADER_LENGTH {
      var header := stream[..HEADER_LENGTH];
      if VerifyHeader(crc, header) == None && ChainID(header) == chain {
        BodySound(crc, chain, handler, header, stream[HEADER_LENGTH..], delivered);
      }
    }
  }

  lemma {:induction false} BodySound(crc: Crc, chain: u32, handler: Handler, header: Bytes, stream: Bytes, delivered: seq<Bytes>)
    requires |header| == HEADER_LENGTH && VerifyHeader(crc, header) == None
    ensures Sound(crc, chain, ParseBody(crc, chain, handler, header, stream, delivered))
    decreases |stream|, 2
  {
    hide VerifyHeader, ChainID, DataLength, VerifyData;
    var n := DataLength(header);
    if |stream| >= n { ParseSound(crc, chain, handler, stream[n..], delivered + [header + stream[..n]]); }
  }

  /** Parsing a stream that grows goes on from where the shorter one stood. */
  lemma {:induction false} ParseMore(crc: Crc, chain: u32, handler: Handler, stream: Bytes, more: Bytes, delivered: seq<Bytes>)
    ensures Sound(crc, chain, Parse(crc, chain, handler, stream, delivered))
    ensures Parse(crc, chain, handler, stream + more, delivered) == Resume(crc, chain, handler, Parse(crc, chain, handler, stream, delivered), more)
    decreases |stream|, 1
  {
    hide VerifyHeader, ChainID, DataLength, VerifyData;
    ParseSound(crc, chain, handler, stream, delivered);
    if |stream| >= HEADER_LENGTH {
      var header := stream[..HEADER_LENGTH];
      assert (stream + more)[..HEADER_LENGTH] == header;
      assert (stream + more)[HEADER_LENGTH..] == stream[HEADER_LENGTH..] + more;
      if VerifyHeader(crc, header) == None && ChainID(header) == chain {
        BodyMore(crc, chain, handler, header, stream[HEADER_LENGTH..], more, delivered);
      }
    }
  }

  lemma {:induction false} BodyMore(crc: Crc, chain: u32, handler: Handler, header: Bytes, stream: Bytes, more: Bytes, delivered: seq<Bytes>)
    requires |header| == HEADER_LENGTH && VerifyHeader(crc, header) == None
    ensures Sound(crc, chain, ParseBody(crc, chain, handler, header, stream, delivered))
    ensures ParseBody(crc, chain, handler, header, stream + more, delivered) ==
            Resume(crc, chain, handler, ParseBody(crc, chain, handler, header, stream, delivered), more)
    decreases |stream|, 2
  {
    hide VerifyHeader, ChainID, DataLength, VerifyData;
    BodySound(crc, chain, handler, header, stream, delivered);
    var n := DataLength(header);
    if |stream| >= n {
      assert (stream + more)[..n] == stream[..n] && (stream + more)[n..] == stream[n..] + more;
      ParseMore(crc, chain, handler, stream[n..], more, delivered + [header + stream[..n]]);
    }
  }

  /** Where the loop is heading with these variables. */
  ghost function Goal(crc: Crc, chain: u32, handler: Handler, message: Option<Bytes>, buffer: Bytes, delivered: seq<Bytes>): Outcome
    requires message.Some? ==> |message.value| == HEADER_LENGTH
  {
    if message.None? then Parse(crc, chain, handler, buffer, delivered) else ParseBody(crc, chain, handler, message.value, buffer, delivered)
  }

  lemma StepHeader(crc: Crc, chain: u32, handler: Handler, buffer: Bytes, delivered: seq<Bytes>)
    ensures var p, h := Parse(crc, chain, handler, buffer, delivered), ParseNebMessage(crc, buffer);
            if |buffer| < HEADER_LENGTH then p == Waiting(delivered, None, buffer)
            else if h.Err? then p == Closed(delivered)
            else h.value == buffer[..HEADER_LENGTH] && VerifyHeader(crc, h.value) == None &&
                 p == if ChainID(h.value) != chain then Closed(delivered)
                      else ParseBody(crc, chain, handler, h.value, buffer[HEADER_LENGTH..], delivered)
  {
  }

  lemma StepBody(crc: Crc, chain: u32, handler: Handler, header: Bytes, buffer: Bytes, delivered: seq<Bytes>)
    requires |header| == HEADER_LENGTH && |buffer| < 0x1_0000_0000
    ensures var p, n, c := ParseBody(crc, chain, handler, header, buffer, delivered), DataLength(header), ParseMessageData(crc, header, buffer);
            if |buffer| < n then p == Waiting(delivered, Some(header), buffer)
            else if c.Err? then p == Closed(delivered)
            else p == if handler(delivered + [c.value]) then Closed(delivered + [c.value])
                      else Parse(crc, chain, handler, buffer[n..], delivered + [c.value])
  {
  }

  /** Between reads the buffer is short of one message, so a read cannot fill it beyond 32 bits. */
  lemma BufferBound(crc: Crc, chain: u32, o: Outcome, data: Bytes)
    requires Sound(crc, chain, o) && o.Waiting? && |data| <= READ_SIZE
    ensures |o.buffer + data| < 0x1_0000_0000
  {
  }

  function Concat(chunks: seq<Bytes>): Bytes
  {
    if chunks == [] then [] else Concat(chunks[..|chunks| - 1]) + chunks[|chunks| - 1]
  }

  class Stream {
    const crc: Crc
    const chain: u32
    const handler: Handler
    var messageBuffer: Bytes
    var message: Option<Bytes>
    var delivered: seq<Bytes>
    var closed: bool

    constructor (crc: Crc, chain: u32, handler: Handler)
      ensures this.crc == crc && this.chain == chain && this.handler == handler
      ensures messageBuffer == [] && message == None && delivered == [] && !closed
    {
      this.crc, this.chain, this.handler := crc, chain, handler;
      messageBuffer, message, delivered, closed := [], None, [], false;
    }

    /** What the loop's variables stand for. */
    ghost function Standing(): Outcome
      reads this
    {
      if closed then Closed(delivered) else Waiting(delivered, message, messageBuffer)
    }

    /** Takes every message the buffer holds after a read. */
    method OnRead(data: Bytes)
      requires !closed && |data| <= READ_SIZE && Sound(crc, chain, Standing())
      modifies this
      ensures Sound(crc, chain, Standing())
      ensures Standing() == Resume(crc, chain, handler, old(Standing()), data)
    {
      hide VerifyHeader, ChainID, VerifyData, Parse, ParseBody;
      messageBuffer := messageBuffer + data;
      BufferBound(crc, chain, old(Standing()), data);
      ghost var goal := Resume(crc, chain, handler, old(Standing()), data);
      while true
        invariant !closed && |messageBuffer| < 0x1_0000_0000
        invariant message.Some? ==> |message.value| == HEADER_LENGTH && VerifyHeader(crc, message.value) == None
        invariant goal == Goal(crc, chain, handler, message, messageBuffer, delivered)
        decreases |messageBuffer|, if message.Some? then 1 else 0
      {
        if message == None {
          StepHeader(crc, chain, handler, messageBuffer, delivered);
          if |messageBuffer| < HEADER_LENGTH { break; }
          var parsed := ParseNebMessage(crc, messageBuffer);
          if parsed.Err? || ChainID(parsed.value) != chain {
            closed := true;
            return;
          }
          message := Some(parsed.value);
          messageBuffer := messageBuffer[HEADER_LENGTH..];
        }
        StepBody(crc, chain, handler, message.value, messageBuffer, delivered);
        if |messageBuffer| < DataLength(message.value) { break; }
        var content := ParseMessageData(crc, message.value, messageBuffer);
        if content.Err? {
          closed := true;
          return;
        }
        messageBuffer := messageBuffer[DataLength(message.value)..];
        delivered := delivered + [content.value];
        message := None;
        if handler(delivered) {
          closed := true;
          return;
        }
      }
    }

    /** Reads chunk after chunk until the connection closes; what is delivered depends on the bytes alone. */
    method ReadLoop(chunks: seq<Bytes>)
      requires !closed && Standing() == Waiting([], None, []) && forall i :: 0 <= i < |chunks| ==> |chunks[i]| <= READ_SIZE
      modifies this
      ensures Standing() == Parse(crc, chain, handler, Concat(chunks), [])
    {
      hide Parse, Sound;
      ParseStart(crc, chain, handler);
      for i := 0 to |chunks|
        invariant !closed && Sound(crc, chain, Standing())
        invariant Standing() == Parse(crc, chain, handler, Concat(chunks[..i]), [])
      {
        ParseMore(crc, chain, handler, Concat(chunks[..i]), chunks[i], []);
        ConcatMore(chunks, i);
        OnRead(chunks[i]);
        if closed {
          ClosedStays(crc, chain, handler, chunks, i + 1);
          return;
        }
      }
      assert chunks[..|chunks|] == chunks;
    }
  }

  lemma ParseStart(crc: Crc, chain: u32, handler: Handler)
    ensures Sound(crc, chain, Waiting([], None, [])) && Parse(crc, chain, handler, [], []) == Waiting([], None, [])
  {
  }

  lemma ConcatMore(chunks: seq<Bytes>, i: nat)
    requires i < |chunks|
    ensures Concat(chunks[..i + 1]) == Concat(chunks[..i]) + chunks[i]
  {
    assert chunks[..i + 1][..i] == chunks[..i];
  }

  /** What comes after the connection closed changes nothing. */
  lemma {:induction false} ClosedStays(crc: Crc, chain: u32, handler: Handler, chunks: seq<Bytes>, i: nat)
    requires i <= |chunks| && Parse(crc, chain, handler, Concat(chunks[..i]), []).Closed?
    ensures Parse(crc, chain, handler, Concat(chunks), []) == Parse(crc, chain, handler, Concat(chunks[..i]), [])
    decreases |chunks| - i
  {
    hide Parse, Sound;
    if i < |chunks| {
      ConcatMore(chunks, i);
      ParseMore(crc, chain, handler, Concat(chunks[..i]), chunks[i], []);
      ClosedStays(crc, chain, handler, chunks, i + 1);
    } else {
      assert chunks[..i] == chunks;
    }
  }

  // --- good and bad frames, by their bytes ---------------------------------------------------------

  /** The header of a frame for this chain: magic number, chain, checksum over what precedes it, and a length within
      the limit. */
  ghost predicate GoodHeader(crc: Crc, chain: u32, h: Bytes)
    requires |h| >= 36
  {
    h[0] == 0x4e && h[1] == 0x45 && h[2] == 0x42 && h[3] == 0x31 && Uint32(h[4..8]) == chain && crc(h[..32]) == Uint32(h[32..36]) &&
    Uint32(h[24..28]) <= 536870912
  }

  ghost predicate GoodFrame(crc: Crc, chain: u32, m: Bytes)
  {
    |m| >= 36 && GoodHeader(crc, chain, m) && |m| == 36 + Uint32(m[24..28]) && crc(m[36..]) == Uint32(m[28..32])
  }

  /** The stream starts with a frame that has arrived far enough to be seen to be wrong. */
  ghost predicate StartsBad(crc: Crc, chain: u32, s: Bytes)
  {
    |s| >= 36 && (!GoodHeader(crc, chain, s) ||
                  (|s| >= 36 + Uint32(s[24..28]) && crc(s[36..36 + Uint32(s[24..28])]) != Uint32(s[28..32])))
  }

  lemma HeaderExact(crc: Crc, chain: u32, s: Bytes)
    requires |s| >= 36
    ensures VerifyHeader(crc, s[..36]) == None && ChainID(s[..36]) == chain <==> GoodHeader(crc, chain, s)
    ensures DataLength(s[..36]) == Uint32(s[24..28])
  {
    hide Uint32;
    SameFields(s);
    var h := s[..36];
    assert h[..4] == s[..4] && s[..4] == [s[0], s[1], s[2], s[3]];
  }

  lemma DataExact(crc: Crc, s: Bytes, n: nat)
    requires |s| >= 36 + n
    ensures VerifyData(crc, s[..36] + s[36..][..n]) == None <==> crc(s[36..36 + n]) == Uint32(s[28..32])
    ensures s[..36] + s[36..][..n] == s[..36 + n]
  {
    hide Uint32;
    var c := s[..36] + s[36..][..n];
    assert c == s[..36 + n];
    assert c[36..] == s[36..36 + n] && c[28..32] == s[28..32];
  }

  /** A bad frame at the front closes the connection at once. */
  lemma BadCloses(crc: Crc, chain: u32, handler: Handler, s: Bytes, delivered: seq<Bytes>)
    requires StartsBad(crc, chain, s)
    ensures Parse(crc, chain, handler, s, delivered) == Closed(delivered)
  {
    hide Uint32, VerifyHeader, VerifyData, ChainID, DataLength;
    HeaderExact(crc, chain, s);
    if GoodHeader(crc, chain, s) { DataExact(crc, s, Uint32(s[24..28])); }
  }

  /** A good frame at the front is delivered, and what follows is read next. */
  lemma GoodDelivered(crc: Crc, chain: u32, handler: Handler, m: Bytes, more: Bytes, delivered: seq<Bytes>)
    requires GoodFrame(crc, chain, m)
    ensures Parse(crc, chain, handler, m + more, delivered) ==
            if handler(delivered + [m]) then Closed(delivered + [m]) else Parse(crc, chain, handler, more, delivered + [m])
  {
    hide Uint32, VerifyHeader, VerifyData, ChainID, DataLength, GoodHeader;
    var s, n := m + more, |m| - 36;
    SameStart(crc, chain, m, more);
    HeaderExact(crc, chain, s);
    DataExact(crc, s, n);
    assert s[36..][n..] == more && s[36..36 + n] == m[36..] && s[..36 + n] == m;
  }

  lemma SameStart(crc: Crc, chain: u32, m: Bytes, more: Bytes)
    requires |m| >= 36
    ensures GoodHeader(crc, chain, m + more) == GoodHeader(crc, chain, m) && (m + more)[24..28] == m[24..28] && (m + more)[28..32] == m[28..32]
  {
    var s := m + more;
    assert s[4..8] == m[4..8] && s[24..28] == m[24..28] && s[28..32] == m[28..32] && s[32..36] == m[32..36] && s[..32] == m[..32];
  }

  /** Good frames followed by a bad one: exactly the good ones are delivered, and the connection closes. */
  lemma {:induction false} GoodThenBad(crc: Crc, chain: u32, handler: Handler, ms: seq<Bytes>, rest: Bytes, delivered: seq<Bytes>)
    requires (forall i :: 0 <= i < |ms| ==> GoodFrame(crc, chain, ms[i])) && StartsBad(crc, chain, rest)
    requires forall d :: !handler(d)
    ensures Parse(crc, chain, handler, Joined(ms) + rest, delivered) == Closed(delivered + ms)
    decreases |ms|
  {
    hide Parse, GoodFrame, StartsBad;
    if ms == [] {
      assert Joined(ms) + rest == rest && delivered + ms == delivered;
      BadCloses(crc, chain, handler, rest, delivered);
    } else {
      var more := Joined(ms[1..]) + rest;
      assert Joined(ms) + rest == ms[0] + more;
      GoodDelivered(crc, chain, handler, ms[0], more, delivered);
      GoodThenBad(crc, chain, handler, ms[1..], rest, delivered + [ms[0]]);
      assert delivered + [ms[0]] + ms[1..] == delivered + ms;
    }
  }

  function Joined(ms: seq<Bytes>): Bytes
  {
    if ms == [] then [] else ms[0] + Joined(ms[1..])
  }

  function Unread(o: Outcome): Bytes
    requires o.Waiting?
  {
    (if o.message.Some? then o.message.value else []) + o.buffer
  }

  /** Whatever the bytes: every message delivered is a good frame, the messages are the front of the stream in order,
      and a connection that no handler closes is closed exactly when a bad frame comes next. */
  lemma {:induction false} OnlyGoodDelivered(crc: Crc, chain: u32, handler: Handler, stream: Bytes, delivered: seq<Bytes>) returns (ms: seq<Bytes>, rest: Bytes)
    ensures var o := Parse(crc, chain, handler, stream, delivered);
            o.delivered == delivered + ms && stream == Joined(ms) + rest && (forall i :: 0 <= i < |ms| ==> GoodFrame(crc, chain, ms[i])) &&
            (o.Waiting? ==> Unread(o) == rest && !StartsBad(crc, chain, rest)) &&
            (o.Closed? ==> StartsBad(crc, chain, rest) || (ms != [] && handler(o.delivered)))
    decreases |stream|
  {
    hide Parse, GoodFrame, StartsBad, Complete, Unread;
    if StartsBad(crc, chain, stream) {
      ms, rest := [], stream;
      BadCloses(crc, chain, handler, stream, delivered);
      assert delivered + ms == delivered && Joined(ms) + rest == stream;
    } else if Complete(stream) {
      var m, more := FirstFrame(crc, chain, stream);
      GoodDelivered(crc, chain, handler, m, more, delivered);
      if handler(delivered + [m]) {
        ms, rest := [m], more;
        assert Joined([m]) + more == stream;
      } else {
        var tail: seq<Bytes>;
        tail, rest := OnlyGoodDelivered(crc, chain, handler, more, delivered + [m]);
        ms := [m] + tail;
        assert delivered + [m] + tail == delivered + ms;
        assert ms[1..] == tail && Joined(ms) + rest == m + (Joined(tail) + rest);
      }
    } else {
      ms, rest := [], stream;
      StillWaiting(crc, chain, handler, stream, delivered);
      assert delivered + ms == delivered && Joined(ms) + rest == stream;
    }
  }

  /** The first frame has arrived whole. */
  ghost predicate Complete(s: Bytes)
  {
    |s| >= 36 && |s| >= 36 + Uint32(s[24..28])
  }

  lemma FirstFrame(crc: Crc, chain: u32, s: Bytes) returns (m: Bytes, more: Bytes)
    requires Complete(s) && !StartsBad(crc, chain, s)
    ensures m + more == s && GoodFrame(crc, chain, m) && |more| < |s|
  {
    hide Uint32, GoodHeader;
    var n: nat := Uint32(s[24..28]);
    m, more := s[..36 + n], s[36 + n..];
    FrameIs(crc, chain, s, n);
  }

  lemma StillWaiting(crc: Crc, chain: u32, handler: Handler, s: Bytes, delivered: seq<Bytes>)
    requires !Complete(s) && !StartsBad(crc, chain, s)
    ensures var o := Parse(crc, chain, handler, s, delivered); o.Waiting? && o.delivered == delivered && Unread(o) == s
  {
    hide Uint32, VerifyHeader, VerifyData, ChainID, DataLength, GoodHeader;
    if |s| >= 36 {
      HeaderExact(crc, chain, s);
      assert s[..36] + s[36..] == s;
    } else {
      assert [] + s == s;
    }
  }

  lemma FrameIs(crc: Crc, chain: u32, s: Bytes, n: nat)
    requires |s| >= 36 + n && GoodHeader(crc, chain, s) && n == Uint32(s[24..28]) && crc(s[36..36 + n]) == Uint32(s[28..32])
    ensures GoodFrame(crc, chain, s[..36 + n])
  {
    hide Uint32, GoodHeader;
    var m := s[..36 + n];
    assert m + s[36 + n..] == s;
    SameStart(crc, chain, m, s[36 + n..]);
    assert m[36..] == s[36..36 + n];
  }

  // --- what a sender builds ------------------------------------------------------------------------

  /** Fields a sender may give a message. */
  datatype Fields = Fields(reserved: Bytes, version: byte, name: Bytes, data: Bytes)

  predicate Sendable(f: Fields)
  {
    |f.reserved| <= 3 && |f.name| <= MAX_NAME_LENGTH && |f.data| <= MAX_DATA_LENGTH
  }

  function Sent(crc: Crc, chain: u32, f: Fields): Bytes
    requires Sendable(f)
  {
    Message(crc, chain, f.reserved, f.version, f.name, f.data)
  }

  function Contents(crc: Crc, chain: u32, fs: seq<Fields>): seq<Bytes>
    requires forall i :: 0 <= i < |fs| ==> Sendable(fs[i])
  {
    if fs == [] then [] else Contents(crc, chain, fs[..|fs| - 1]) + [Sent(crc, chain, fs[|fs| - 1])]
  }

  /** A stream of built messages is delivered message for message, when no handler closes the connection. */
  lemma {:induction false} SentIsDelivered(crc: Crc, chain: u32, handler: Handler, fs: seq<Fields>)
    requires forall i :: 0 <= i < |fs| ==> Sendable(fs[i])
    requires forall d :: !handler(d)
    ensures Parse(crc, chain, handler, Concat(Contents(crc, chain, fs)), []) == Waiting(Contents(crc, chain, fs), None, [])
    decreases |fs|
  {
    hide Parse, ParseBody, Sent, Contents, Concat, Sendable, Sound;
    NoContents(crc, chain);
    if fs == [] {
      ParseStart(crc, chain, handler);
    } else {
      var front, f := fs[..|fs| - 1], fs[|fs| - 1];
      SentIsDelivered(crc, chain, handler, front);
      ContentsMore(crc, chain, fs);
      ParseMore(crc, chain, handler, Concat(Contents(crc, chain, front)), Sent(crc, chain, f), []);
      assert [] + Sent(crc, chain, f) == Sent(crc, chain, f);
      OneMessage(crc, chain, handler, f, Contents(crc, chain, front));
    }
  }

  lemma NoContents(crc: Crc, chain: u32)
    ensures Contents(crc, chain, []) == [] && Concat([]) == []
  {
  }

  lemma ContentsMore(crc: Crc, chain: u32, fs: seq<Fields>)
    requires fs != [] && forall i :: 0 <= i < |fs| ==> Sendable(fs[i])
    ensures var front, f := fs[..|fs| - 1], fs[|fs| - 1];
            Contents(crc, chain, fs) == Contents(crc, chain, front) + [Sent(crc, chain, f)] &&
            Concat(Contents(crc, chain, fs)) == Concat(Contents(crc, chain, front)) + Sent(crc, chain, f)
  {
  }

  lemma OneMessage(crc: Crc, chain: u32, handler: Handler, f: Fields, delivered: seq<Bytes>)
    requires Sendable(f) && forall d :: !handler(d)
    ensures var m := Sent(crc, chain, f);
            Parse(crc, chain, handler, m, delivered) == Waiting(delivered + [m], None, [])
  {
    hide Parse, ParseBody, Message;
    var m := Message(crc, chain, f.reserved, f.version, f.name, f.data);
    FieldsRoundTrip(crc, chain, f.reserved, f.version, f.name, f.data);
    ParseRoundTrip(crc, chain, f.reserved, f.version, f.name, f.data, []);
    assert m + [] == m && f.data + [] == f.data;
    var h := m[..HEADER_LENGTH];
    SameFields(m);
    StepHeader(crc, chain, handler, m, delivered);
    StepBody(crc, chain, handler, h, f.data, delivered);
    StepHeader(crc, chain, handler, f.data[|f.data|..], delivered + [m]);
  }
}
