/** The JT/T 808 message codec as pure functions: what Encode and Decode of
    protocol/codec.go compute, byte for byte and error for error. */
module Codec {
  import opened Types
  import opened Wire
  import opened Escaping
  import opened Bcd

  datatype Header = Header(
    msgId: word, property: word, version: byte, phone: seq<byte>, flowNo: word,
    bodyLength: word, subPackage: bool, encryption: byte)

  datatype Message = Message(header: Header, body: seq<byte>)

  function PhoneLength(version: byte): nat {
    if version > 0 then PHONE_LENGTH_2019 else PHONE_LENGTH_LEGACY
  }

  function EncodeHeader(h: Header): seq<byte> {
    [Hi(h.msgId), Lo(h.msgId), Hi(h.property), Lo(h.property)]
    + (if h.version > 0 then [h.version] else [])
    + Pack(h.phone, PhoneLength(h.version))
    + [Hi(h.flowNo), Lo(h.flowNo)]
    + (if h.subPackage then [0, 1, 0, 1] else [])
  }

  function Stamped(h: Header, length: word): Header {
    h.(property := PropertyOf(length, h.subPackage, h.encryption, h.version > 0))
  }

  /** The header after Encode has refreshed its property word. */
  function Refreshed(m: Message): Header
    requires |m.body| <= MAX_BODY
  {
    Stamped(m.header, |m.body|)
  }

  function Encode(m: Message): Result<seq<byte>> {
    if |m.body| > MAX_BODY then Err(MessageTooLong)
    else
      var header := EncodeHeader(Refreshed(m));
      var checksum := Checksum(header + m.body);
      Ok([FLAG] + Escape(header) + Escape(m.body) + Escape([checksum]) + [FLAG])
  }

  function DecodeHeader(data: seq<byte>): Result<(Header, nat)> {
    if |data| < 12 then Err(InvalidMessage)
    else
      var msgId := Join(data[0], data[1]);
      var property := Join(data[2], data[3]);
      var versioned := VersionBit(property);
      var version := if versioned then data[4] else 0;
      var o := if versioned then 5 else 4;
      var n := PhoneLength(version);
      if |data| < o + n + 2 then Err(InvalidMessage)
      else
        var phone := Unpack(data[o..o + n]);
        var flowNo := Join(data[o + n], data[o + n + 1]);
        var subPackage := SubPackageBit(property);
        var header := Header(msgId, property, version, phone, flowNo,
                             LengthField(property), subPackage, EncryptionField(property));
        if subPackage then
          if |data| < o + n + 6 then Err(InvalidMessage) else Ok((header, o + n + 6))
        else Ok((header, o + n + 2))
  }

  function DecodePayload(payload: seq<byte>): Result<Message> {
    if |payload| < 13 then Err(InvalidMessage)
    else
      var content := payload[..|payload| - 1];
      if payload[|payload| - 1] != Checksum(content) then Err(InvalidChecksum)
      else match DecodeHeader(content)
        case Err(e) => Err(e)
        case Ok((header, headerLength)) =>
          if headerLength > |content| then Err(InvalidMessage)
          else if |content| - headerLength != header.bodyLength then Err(InvalidMessage)
          else Ok(Message(header, content[headerLength..]))
  }

  function Decode(data: seq<byte>): Result<Message> {
    if |data| < 2 then Err(InvalidMessage)
    else if data[0] != FLAG || data[|data| - 1] != FLAG then Err(InvalidFlag)
    else match Unescape(data[1..|data| - 1])
      case Err(e) => Err(e)
      case Ok(payload) => DecodePayload(payload)
  }

  // ---------------------------------------------------------------- encoding shape

  /** The bytes between the flags before stuffing: header, body, checksum. */
  function Payload(m: Message): seq<byte>
    requires |m.body| <= MAX_BODY
  {
    var header := EncodeHeader(Refreshed(m));
    header + m.body + [Checksum(header + m.body)]
  }

  function HeaderLength(version: byte, subPackage: bool): nat {
    (if version > 0 then 5 else 4) + PhoneLength(version) + (if subPackage then 6 else 2)
  }

  lemma EncodeHeaderLength(h: Header)
    ensures |EncodeHeader(h)| == HeaderLength(h.version, h.subPackage)
  {
  }

  lemma EscapeParts(header: seq<byte>, body: seq<byte>, c: byte)
    ensures Escape(header) + Escape(body) + Escape([c]) == Escape(header + body + [c])
  {
    EscapeConcat(header + body, [c]);
    EscapeConcat(header, body);
  }

  lemma PayloadLength(m: Message)
    requires |m.body| <= MAX_BODY
    ensures |Payload(m)| == HeaderLength(m.header.version, m.header.subPackage) + |m.body| + 1
  {
    EncodeHeaderLength(Refreshed(m));
  }

  /** The three separate escapes of Encode amount to one escape of the whole payload, so a
      frame is a flag-free stuffed payload between two flags. */
  lemma EncodeIsFrame(m: Message)
    requires |m.body| <= 1023
    ensures Encode(m) == Ok([0x7E] + Escape(Payload(m)) + [0x7E])
    ensures 0x7E !in Escape(Payload(m))
    ensures 13 <= |Payload(m)| <= 21 + 1023 + 1
    ensures |Escape(Payload(m))| <= 2090
  {
    var header := EncodeHeader(Refreshed(m));
    var c := Checksum(header + m.body);
    PayloadLength(m);
    EscapeShape(Payload(m));
    EscapeParts(header, m.body, c);
    Flagged(Escape(header), Escape(m.body), Escape([c]));
  }

  lemma Flagged(a: seq<byte>, b: seq<byte>, c: seq<byte>)
    ensures [FLAG] + a + b + c + [FLAG] == [FLAG] + (a + b + c) + [FLAG]
  {
  }

  lemma DecodeFrame(payload: seq<byte>)
    ensures Decode([FLAG] + Escape(payload) + [FLAG]) == DecodePayload(payload)
  {
    var f := [FLAG] + Escape(payload) + [FLAG];
    assert f[1..|f| - 1] == Escape(payload);
    UnescapeEscape(payload);
  }
}
