/** The PlotJuggler bridge data frame: a ZSTD payload of length-prefixed messages. */
module BridgeFrame {
  import opened Slices
  import opened Wrappers
  import opened RawBytes
  import opened LittleEndian

  /** One message by value; the bytes of the topic are kept as they are on the wire. */
  datatype Message = Message(topic: seq<byte>, timestampNs: int, cdr: seq<byte>)

  /** What the parser hands out: the payload is a view into the decompression buffer. */
  datatype RawMessage = RawMessage(topic: seq<byte>, timestampNs: int, cdrAt: nat, cdrSize: nat)

  /** The lengths and the timestamp fit their 16-, 32- and 64-bit fields. */
  predicate Encodable(m: Message) {
    |m.topic| < TWO_16 && -TWO_63 <= m.timestampNs < TWO_63 && |m.cdr| < TWO_32
  }

  predicate AllEncodable(ms: seq<Message>) {
    forall i :: 0 <= i < |ms| ==> Encodable(ms[i])
  }

  // ----- the wire format -----

  function EncodeMessage(m: Message): seq<byte>
    requires Encodable(m)
  {
    Encode(|m.topic|, 2) + m.topic + Encode(ToUnsigned64(m.timestampNs), 8) + Encode(|m.cdr|, 4) + m.cdr
  }

  function EncodeAll(ms: seq<Message>): seq<byte>
    requires AllEncodable(ms)
  {
    if ms == [] then [] else EncodeMessage(ms[0]) + EncodeAll(ms[1..])
  }

  // ----- the walk over the decompressed payload -----

  /** Reads one message off the front of `p`; None when a bounds check fails. */
  function TakeMessage(p: seq<byte>): Option<(Message, seq<byte>)> {
    if |p| < 2 then None else
    var topicLen := Decode(p[..2]);
    if |p| < 2 + topicLen + 8 + 4 then None else
    var topic := p[2..2 + topicLen];
    var stamp := ToSigned64(Decode(p[2 + topicLen..2 + topicLen + 8]));
    var cdrLen := Decode(p[2 + topicLen + 8..2 + topicLen + 12]);
    var at := 2 + topicLen + 12;
    if |p| < at + cdrLen then None
    else Some((Message(topic, stamp, p[at..at + cdrLen]), p[at + cdrLen..]))
  }

  /** The messages read before the walk stopped, whether it got through all `count`, and what is left. */
  datatype Walked = Walked(ok: bool, messages: seq<Message>, rest: seq<byte>)

  function Walk(p: seq<byte>, count: nat): (w: Walked)
    ensures w.ok ==> |w.messages| == count
  {
    if count == 0 then Walked(true, [], p)
    else match TakeMessage(p)
      case None => Walked(false, [], p)
      case Some((m, rest)) =>
        var w := Walk(rest, count - 1);
        Walked(w.ok, [m] + w.messages, w.rest)
  }

  /** A message, byte by byte: two bytes of topic length n, the topic, the timestamp's lower and upper half from 2 + n
      on, in two's complement, the payload's length at 10 + n, and the payload. */
  lemma MessageExactly(p: seq<byte>)
    ensures var n := if |p| >= 2 then Word16(p, 0) else 0;
            && (TakeMessage(p).Some? <==> |p| >= 14 + n && |p| >= 14 + n + Word32(p, 10 + n))
            && (TakeMessage(p).Some? ==>
                  var (m, rest), size := TakeMessage(p).value, Word32(p, 10 + n);
                  && m.topic == p[2..2 + n] && m.cdr == p[14 + n..14 + n + size] && rest == p[14 + n + size..]
                  && m.timestampNs == var u := Word32(p, 2 + n) + 0x1_0000_0000 * Word32(p, 6 + n);
                                      if u < 0x8000_0000_0000_0000 then u else u - 0x1_0000_0000_0000_0000)
  {
    if |p| >= 2 {
      TwoBytes(p, 0);
      var n := Word16(p, 0);
      if |p| >= 14 + n {
        EightBytes(p, 2 + n);
        FourBytes(p, 10 + n);
      }
    }
  }

  lemma TakeEncoded(m: Message, rest: seq<byte>)
    requires Encodable(m)
    ensures TakeMessage(EncodeMessage(m) + rest) == Some((m, rest))
  {
    Widths();
    var p := EncodeMessage(m) + rest;
    var n := |m.topic|;
    DecodeEncode(n, 2);
    DecodeEncode(ToUnsigned64(m.timestampNs), 8);
    DecodeEncode(|m.cdr|, 4);
    assert p[..2] == Encode(n, 2);
    assert p[2..2 + n] == m.topic;
    assert p[2 + n..2 + n + 8] == Encode(ToUnsigned64(m.timestampNs), 8);
    assert p[2 + n + 8..2 + n + 12] == Encode(|m.cdr|, 4);
    assert p[2 + n + 12..2 + n + 12 + |m.cdr|] == m.cdr;
    assert p[2 + n + 12 + |m.cdr|..] == rest;
  }

  lemma SixPieces(p: seq<byte>, n: nat, k: nat)
    requires |p| >= 2 + n + 12 + k
    ensures Same(p, p[..2] + p[2..2 + n] + p[2 + n..2 + n + 8] + p[2 + n + 8..2 + n + 12]
                    + p[2 + n + 12..2 + n + 12 + k] + p[2 + n + 12 + k..])
  {
    SameIf(p, p[..2] + p[2..2 + n] + p[2 + n..2 + n + 8] + p[2 + n + 8..2 + n + 12]
              + p[2 + n + 12..2 + n + 12 + k] + p[2 + n + 12 + k..]);
  }

  lemma TakenIsEncoding(p: seq<byte>)
    requires TakeMessage(p).Some?
    ensures var (m, rest) := TakeMessage(p).value;
            Encodable(m) && Same(p, EncodeMessage(m) + rest)
  {
    Widths();
    var (m, rest) := TakeMessage(p).value;
    var n := |m.topic|;
    EncodeDecode(p[..2]);
    EncodeDecode(p[2 + n..2 + n + 8]);
    EncodeDecode(p[2 + n + 8..2 + n + 12]);
    var u := Decode(p[2 + n..2 + n + 8]);
    assert ToUnsigned64(ToSigned64(u)) == u;
    SixPieces(p, n, |m.cdr|);
  }

  lemma EncodeAllCons(ms: seq<Message>, rest: seq<byte>)
    requires AllEncodable(ms) && ms != []
    ensures EncodeAll(ms) + rest == EncodeMessage(ms[0]) + (EncodeAll(ms[1..]) + rest)
  {
  }

  lemma WalkCons(p: seq<byte>, count: nat, m: Message, rest: seq<byte>)
    requires count > 0 && TakeMessage(p) == Some((m, rest))
    ensures var w := Walk(rest, count - 1); Walk(p, count) == Walked(w.ok, [m] + w.messages, w.rest)
  {
  }

  /** Walking an encoding gives the list back, whatever follows it. */
  lemma {:induction false} WalkEncoded(ms: seq<Message>, rest: seq<byte>)
    requires AllEncodable(ms)
    ensures Walk(EncodeAll(ms) + rest, |ms|) == Walked(true, ms, rest)
  {
    if ms == [] {
      assert EncodeAll(ms) + rest == rest;
    } else {
      var after := EncodeAll(ms[1..]) + rest;
      TakeEncoded(ms[0], after);
      EncodeAllCons(ms, rest);
      WalkEncoded(ms[1..], rest);
      WalkCons(EncodeAll(ms) + rest, |ms|, ms[0], after);
      assert ms == [ms[0]] + ms[1..];
    }
  }

  lemma EncodingOfCons(m: Message, w: Walked)
    requires Encodable(m) && AllEncodable(w.messages)
    ensures AllEncodable([m] + w.messages)
    ensures EncodeAll([m] + w.messages) + w.rest == EncodeMessage(m) + (EncodeAll(w.messages) + w.rest)
  {
    assert ([m] + w.messages)[1..] == w.messages;
  }

  /** Every payload the walk accepts begins with the encoding of the list it returns. */
  lemma {:induction false} WalkedIsEncoding(p: seq<byte>, count: nat)
    ensures var w := Walk(p, count);
            w.ok ==> AllEncodable(w.messages) && p == EncodeAll(w.messages) + w.rest
  {
    if count == 0 {
      assert p == [] + p;
    } else {
      var taken := TakeMessage(p);
      if taken.Some? {
        TakenIsEncoding(p);
        WalkedIsEncoding(taken.value.1, count - 1);
        var w' := Walk(taken.value.1, count - 1);
        if w'.ok {
          EncodingOfCons(taken.value.0, w');
        }
      }
    }
  }

  lemma PrefixEncodingAccepted(p: seq<byte>, ms: seq<Message>)
    requires AllEncodable(ms) && EncodeAll(ms) <= p
    ensures Walk(p, |ms|).ok && Walk(p, |ms|).messages == ms
  {
    var rest := p[|EncodeAll(ms)|..];
    assert p == EncodeAll(ms) + rest;
    WalkEncoded(ms, rest);
  }

  ghost predicate StartsWith(p: seq<byte>, ms: seq<Message>) {
    AllEncodable(ms) && EncodeAll(ms) <= p
  }

  /** The walk accepts exactly the payloads that start with some encoding of `count` messages. */
  lemma WalkAcceptsExactly(p: seq<byte>, count: nat)
    ensures Walk(p, count).ok <==> exists ms :: |ms| == count && StartsWith(p, ms)
  {
    if Walk(p, count).ok {
      WalkedIsEncoding(p, count);
      assert StartsWith(p, Walk(p, count).messages);
    }
    if ms :| |ms| == count && StartsWith(p, ms) {
      PrefixEncodingAccepted(p, ms);
    }
  }

  // ----- the loop of parseBinaryFrame -----

  /** A raw message read against the buffer it points into. */
  ghost predicate Shows(buffer: seq<byte>, raw: RawMessage, m: Message) {
    && raw.cdrAt + raw.cdrSize <= |buffer|
    && m == Message(raw.topic, raw.timestampNs, buffer[raw.cdrAt..raw.cdrAt + raw.cdrSize])
  }

  ghost predicate ShowAll(buffer: seq<byte>, raws: seq<RawMessage>, ms: seq<Message>) {
    && |raws| == |ms|
    && forall i :: 0 <= i < |raws| ==> Shows(buffer, raws[i], ms[i])
  }

  /** One round of the loop body: five bounds checks and four cursor moves. */
  method ReadMessage(buffer: seq<byte>, start: nat) returns (ok: bool, raw: RawMessage, end: nat)
    requires start <= |buffer|
    ensures start <= end <= |buffer|
    ensures ok == TakeMessage(buffer[start..]).Some?
    ensures ok ==> Shows(buffer, raw, TakeMessage(buffer[start..]).value.0)
    ensures ok ==> buffer[end..] == TakeMessage(buffer[start..]).value.1
  {
    var ptr := start;
    ghost var p := buffer[start..];
    ok, raw, end := false, RawMessage([], 0, 0, 0), ptr;
    if ptr + 2 > |buffer| { return; }
    var topicLen := Decode(buffer[ptr..ptr + 2]);
    assert buffer[ptr..ptr + 2] == p[..2];
    ptr := ptr + 2;
    if ptr + topicLen > |buffer| { return; }
    var topic := buffer[ptr..ptr + topicLen];
    ptr := ptr + topicLen;
    if ptr + 8 > |buffer| { return; }
    var stamp := ToSigned64(Decode(buffer[ptr..ptr + 8]));
    assert buffer[ptr..ptr + 8] == p[2 + topicLen..2 + topicLen + 8];
    ptr := ptr + 8;
    if ptr + 4 > |buffer| { return; }
    var cdrLen := Decode(buffer[ptr..ptr + 4]);
    assert buffer[ptr..ptr + 4] == p[2 + topicLen + 8..2 + topicLen + 12];
    ptr := ptr + 4;
    if ptr + cdrLen > |buffer| { return; }
    raw := RawMessage(topic, stamp, ptr, cdrLen);
    ptr := ptr + cdrLen;
    ok, end := true, ptr;
    assert topic == p[2..2 + topicLen];
    assert buffer[raw.cdrAt..ptr] == p[raw.cdrAt - start..ptr - start];
    assert buffer[end..] == p[end - start..];
  }

  lemma WalkRound(p: seq<byte>, count: nat, done: seq<Message>)
    requires count > 0
    ensures var w := Walk(p, count);
            match TakeMessage(p)
            case None => !w.ok && |w.messages| == 0
            case Some((m, rest)) =>
              var w' := Walk(rest, count - 1);
              w.ok == w'.ok && Same(done + w.messages, (done + [m]) + w'.messages)
  {
    match TakeMessage(p)
    case None =>
    case Some((m, rest)) => Regroup(done, [m], Walk(rest, count - 1).messages);
  }

  /** Messages read before a failing one stay in the output vector, as in the source. */
  method ReadMessages(buffer: seq<byte>, count: nat) returns (ok: bool, messages: seq<RawMessage>)
    ensures ok == Walk(buffer, count).ok
    ensures ShowAll(buffer, messages, Walk(buffer, count).messages)
  {
    messages := [];
    var ptr := 0;
    ghost var whole := Walk(buffer, count);
    ghost var done: seq<Message> := [];
    NothingBefore(done, whole.messages);
    for i := 0 to count
      invariant ptr <= |buffer|
      invariant ShowAll(buffer, messages, done)
      invariant whole.ok == Walk(buffer[ptr..], count - i).ok
      invariant Same(whole.messages, done + Walk(buffer[ptr..], count - i).messages)
    {
      ghost var before, taken := ptr, TakeMessage(buffer[ptr..]);
      WalkRound(buffer[ptr..], count - i, done);
      var raw;
      ok, raw, ptr := ReadMessage(buffer, ptr);
      if !ok {
        NothingAfter(done, Walk(buffer[before..], count - i).messages);
        return;
      }
      messages := messages + [raw];
      done := done + [taken.value.0];
    }
    NothingAfter(done, Walk(buffer[ptr..], 0).messages);
    ok := true;
  }

  // ----- the whole frame -----

  /** ZSTD as the three library calls the frame format relies on. */
  datatype Zstd = Zstd(
    contentSize: seq<byte> -> nat,
    decompress: (seq<byte>, nat) -> Option<seq<byte>>,
    compress: seq<byte> -> seq<byte>)

  /** Compressing records the content size and decompressing into that much room undoes it. */
  ghost predicate InversePair(z: Zstd) {
    forall x: seq<byte> :: z.contentSize(z.compress(x)) == |x| && z.decompress(z.compress(x), |x|) == Some(x)
  }

  const MAGIC := 0x4252_4A50
  const MAX_DECOMPRESSED := 256 * 1024 * 1024

  /** checkedDecompressedSize: the declared size unless it is above the cap. */
  function CheckedDecompressedSize(contentSize: nat): Option<nat> {
    if contentSize > MAX_DECOMPRESSED then None else Some(contentSize)
  }

  /** The payload of a frame whose header and compression are in order. */
  function Payload(data: seq<byte>, z: Zstd): Option<seq<byte>> {
    if |data| < 16 || Decode(data[0..4]) != MAGIC || Decode(data[12..16]) != 0 then None
    else match CheckedDecompressedSize(z.contentSize(data[16..]))
      case None => None
      case Some(size) => z.decompress(data[16..], size)
  }

  method ParseBinaryFrame(data: seq<byte>, z: Zstd)
    returns (ok: bool, messages: seq<RawMessage>, buffer: seq<byte>)
    ensures ok <==> Payload(data, z).Some? && Walk(Payload(data, z).value, Decode(data[4..8])).ok
    ensures ok ==> buffer == Payload(data, z).value
    ensures ok ==> ShowAll(buffer, messages, Walk(buffer, Decode(data[4..8])).messages)
    ensures Payload(data, z).None? ==> messages == []
  {
    ok, messages, buffer := false, [], [];
    if |data| < 16 { return; }
    if Decode(data[0..4]) != MAGIC { return; }
    var msgCount := Decode(data[4..8]);
    if Decode(data[12..16]) != 0 { return; }
    var compressed := data[16..];
    var checkedSize := CheckedDecompressedSize(z.contentSize(compressed));
    if checkedSize.None? { return; }
    var result := z.decompress(compressed, checkedSize.value);
    if result.None? { return; }
    buffer := result.value;
    ok, messages := ReadMessages(buffer, msgCount);
  }

  /** A frame's four parts, byte by byte: it starts with "PJRB", byte 4 to 7 are the message count, 8 to 11 are not
      looked at, 12 to 15 are zero, and the rest is the compressed payload, of at most 256 MiB when decompressed. */
  lemma HeaderExactly(data: seq<byte>, z: Zstd)
    ensures Payload(data, z)
            == if && |data| >= 16 && data[0] == 0x50 && data[1] == 0x4A && data[2] == 0x52 && data[3] == 0x42
                  && data[12] == 0 && data[13] == 0 && data[14] == 0 && data[15] == 0
                  && z.contentSize(data[16..]) <= 0x1000_0000
               then z.decompress(data[16..], z.contentSize(data[16..])) else None
    ensures |data| >= 16 ==> Decode(data[4..8]) == Word32(data, 4)
  {
    if |data| >= 16 {
      FourBytes(data, 0);
      FourBytes(data, 4);
      FourBytes(data, 12);
      MagicWord(data[0], data[1], data[2], data[3]);
    }
  }

  lemma MagicWord(a: nat, b: nat, c: nat, d: nat)
    requires a < 0x100 && b < 0x100 && c < 0x100 && d < 0x100
    ensures a + 0x100 * b + 0x1_0000 * c + 0x100_0000 * d == MAGIC <==> a == 0x50 && b == 0x4A && c == 0x52 && d == 0x42
  {
  }

  /** The frame a bridge server sends; `declared` is the informational size field. */
  function EncodeFrame(ms: seq<Message>, declared: nat, z: Zstd): seq<byte>
    requires AllEncodable(ms)
  {
    Encode(MAGIC, 4) + Encode(|ms|, 4) + Encode(declared, 4) + Encode(0, 4) + z.compress(EncodeAll(ms))
  }

  lemma FrameHeader(ms: seq<Message>, declared: nat, z: Zstd)
    requires AllEncodable(ms) && |ms| < TWO_32
    ensures var d := EncodeFrame(ms, declared, z);
            && |d| >= 16 && Decode(d[0..4]) == MAGIC && Decode(d[4..8]) == |ms|
            && Decode(d[12..16]) == 0 && d[16..] == z.compress(EncodeAll(ms))
  {
    Widths();
    var d := EncodeFrame(ms, declared, z);
    DecodeEncode(MAGIC, 4);
    DecodeEncode(|ms|, 4);
    DecodeEncode(0, 4);
    assert d[0..4] == Encode(MAGIC, 4);
    assert d[4..8] == Encode(|ms|, 4);
    assert d[12..16] == Encode(0, 4);
    assert d[16..] == z.compress(EncodeAll(ms));
  }

  /** Frame round trip: within the field widths and the size cap, parsing returns the list sent. */
  lemma FrameRoundTrip(ms: seq<Message>, declared: nat, z: Zstd)
    requires InversePair(z)
    requires AllEncodable(ms) && |ms| < TWO_32
    ensures var d := EncodeFrame(ms, declared, z);
            if |EncodeAll(ms)| > MAX_DECOMPRESSED then Payload(d, z) == None
            else && Payload(d, z) == Some(EncodeAll(ms))
                 && Walk(EncodeAll(ms), Decode(d[4..8])) == Walked(true, ms, [])
  {
    FrameHeader(ms, declared, z);
    WalkEncoded(ms, []);
    assert EncodeAll(ms) + [] == EncodeAll(ms);
  }
}
