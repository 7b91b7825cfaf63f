/** What the codec promises: round trips in both directions with their exact conditions,
    the exact set of accepted inputs, and error detection. */
module CodecTheorems {
  import opened Types
  import opened Wire
  import opened Escaping
  import opened Bcd
  import opened Codec

  // ---------------------------------------------------------------- the property word

  /** The four fields packed into a property word can all be read back from it. */
  lemma PropertyBits(length: word, sub: bool, e: byte, ver: bool)
    requires length <= MAX_BODY
    ensures var p := PropertyOf(length, sub, e, ver);
            && LengthField(p) == length
            && EncryptionField(p) == e % 8
            && (SubPackageBit(p) <==> sub)
            && (VersionBit(p) <==> ver)
            && !ReservedBit(p)
  {
    FieldSum(length, e % 8, if sub then 1 else 0, if ver then 1 else 0);
  }

  lemma FieldSum(n: nat, e: nat, s: nat, v: nat)
    requires n < 1024 && e < 8 && s <= 1 && v <= 1
    ensures var p := n + 1024 * e + 8192 * s + 16384 * v;
            p % 1024 == n && p / 1024 % 8 == e && p / 8192 % 2 == s && p / 16384 % 2 == v && p / 32768 == 0
  {
    var p := n + 1024 * e + 8192 * s + 16384 * v;
    assert p / 1024 == e + 8 * s + 16 * v;
    assert p / 8192 == s + 2 * v;
    assert p / 16384 == v;
  }

  /** Packing the fields of a property word again restores it exactly when bit 15 is clear. */
  lemma PropertyRepacks(p: word)
    ensures PropertyOf(LengthField(p), SubPackageBit(p), EncryptionField(p), VersionBit(p)) == p <==> !ReservedBit(p)
  {
  }

  lemma HeaderParts(h: Header)
    ensures var e, o, n := EncodeHeader(h), if h.version > 0 then 5 else 4, PhoneLength(h.version);
            && |e| == o + n + (if h.subPackage then 6 else 2)
            && e[..2] == [Hi(h.msgId), Lo(h.msgId)]
            && e[2..4] == [Hi(h.property), Lo(h.property)]
            && e[4..o] == (if h.version > 0 then [h.version] else [])
            && e[o..o + n] == Pack(h.phone, n)
            && e[o + n..o + n + 2] == [Hi(h.flowNo), Lo(h.flowNo)]
            && e[o + n + 2..] == (if h.subPackage then [0, 1, 0, 1] else [])
  {
    var o, n := if h.version > 0 then 5 else 4, PhoneLength(h.version);
    Sections([Hi(h.msgId), Lo(h.msgId), Hi(h.property), Lo(h.property)],
             if h.version > 0 then [h.version] else [], Pack(h.phone, n),
             [Hi(h.flowNo), Lo(h.flowNo)], if h.subPackage then [0, 1, 0, 1] else []);
  }

  lemma Sections(a: seq<byte>, v: seq<byte>, p: seq<byte>, f: seq<byte>, k: seq<byte>)
    requires |a| == 4 && |f| == 2
    ensures var e, o, n := a + v + p + f + k, 4 + |v|, |p|;
            && e[..2] == a[..2] && e[2..4] == a[2..]
            && e[4..o] == v && e[o..o + n] == p && e[o + n..o + n + 2] == f && e[o + n + 2..] == k
  {
  }

  lemma SameWord(w: word, pair: seq<byte>)
    requires |pair| == 2
    ensures [Hi(w), Lo(w)] == pair <==> w == Join(pair[0], pair[1])
  {
    JoinSplit(w);
    SplitJoin(pair[0], pair[1]);
  }

  lemma SameParts(a: seq<byte>, b: seq<byte>, o: nat, n: nat)
    requires |a| == |b| && 4 <= o && o + n + 2 <= |a|
    ensures a == b <==>
            && a[..2] == b[..2] && a[2..4] == b[2..4] && a[4..o] == b[4..o] && a[o..o + n] == b[o..o + n]
            && a[o + n..o + n + 2] == b[o + n..o + n + 2] && a[o + n + 2..] == b[o + n + 2..]
  {
    assert a == a[..2] + a[2..4] + a[4..o] + a[o..o + n] + a[o + n..o + n + 2] + a[o + n + 2..];
    assert b == b[..2] + b[2..4] + b[4..o] + b[o..o + n] + b[o + n..o + n + 2] + b[o + n + 2..];
  }

  /** A header encodes to given bytes exactly when each field matches. */
  lemma HeaderBytes(h: Header, d: seq<byte>)
    requires |d| == HeaderLength(h.version, h.subPackage)
    ensures var o, n := if h.version > 0 then 5 else 4, PhoneLength(h.version);
            EncodeHeader(h) == d <==>
              && h.msgId == Join(d[0], d[1])
              && h.property == Join(d[2], d[3])
              && (h.version > 0 ==> h.version == d[4])
              && Pack(h.phone, n) == d[o..o + n]
              && h.flowNo == Join(d[o + n], d[o + n + 1])
              && (h.subPackage ==> d[o + n + 2..] == [0, 1, 0, 1])
  {
    var o, n := if h.version > 0 then 5 else 4, PhoneLength(h.version);
    var e := EncodeHeader(h);
    HeaderParts(h);
    SameParts(e, d, o, n);
    assert e[..2] == d[..2] <==> h.msgId == Join(d[0], d[1]) by { SameWord(h.msgId, d[..2]); }
    assert e[2..4] == d[2..4] <==> h.property == Join(d[2], d[3]) by { SameWord(h.property, d[2..4]); }
    assert e[o + n..o + n + 2] == d[o + n..o + n + 2] <==> h.flowNo == Join(d[o + n], d[o + n + 1]) by {
      SameWord(h.flowNo, d[o + n..o + n + 2]);
    }
    assert h.version > 0 ==> d[4..o] == [d[4]];
  }

  // ---------------------------------------------------------------- decode after encode

  /** What a message looks like after a trip over the wire. */
  function Normalised(m: Message): Message
    requires |m.body| <= MAX_BODY
  {
    m.(header := NormalHeader(m.header, |m.body|))
  }

  function NormalHeader(h: Header, length: word): Header {
    Stamped(h, length).(
      phone := Unpack(Pack(h.phone, PhoneLength(h.version))),
      bodyLength := length,
      encryption := h.encryption % 8)
  }

  lemma DecodeEncodedHeader(h0: Header, length: word, body: seq<byte>)
    requires length <= MAX_BODY
    ensures var header := EncodeHeader(Stamped(h0, length));
            DecodeHeader(header + body) == Ok((NormalHeader(h0, length), |header|))
  {
    var h := Stamped(h0, length);
    var e := EncodeHeader(h);
    var data := e + body;
    var o, n := if h.version > 0 then 5 else 4, PhoneLength(h.version);
    HeaderBytes(h, e);
    PropertyBits(length, h0.subPackage, h0.encryption, h0.version > 0);
    assert data[o..o + n] == e[o..o + n];
    assert forall i :: 0 <= i < |e| ==> data[i] == e[i];
  }

  /** Encode fails on an over-long body and on nothing else; everything it produces decodes
      to the normal form of the message. */
  lemma DecodeEncode(m: Message)
    ensures |m.body| > 1023 ==> Encode(m) == Err(MessageTooLong)
    ensures |m.body| <= 1023 ==> Encode(m).Ok? && Decode(Encode(m).value) == Ok(Normalised(m))
  {
    if |m.body| <= MAX_BODY {
      EncodeIsFrame(m);
      DecodeFrame(Payload(m));
      DecodeStamped(m.header, |m.body|, m.body);
    }
  }

  lemma DecodeStamped(h: Header, length: word, body: seq<byte>)
    requires length <= MAX_BODY && length == |body|
    ensures var header := EncodeHeader(Stamped(h, length));
            DecodePayload(header + body + [Checksum(header + body)])
              == Ok(Message(NormalHeader(h, length), body))
  {
    var header := EncodeHeader(Stamped(h, length));
    var p := header + body + [Checksum(header + body)];
    EncodeHeaderLength(Stamped(h, length));
    assert p[..|p| - 1] == header + body;
    DecodeEncodedHeader(h, length, body);
    assert (header + body)[|header|..] == body;
  }

  /** The fields of the decoded message in terms of the encoded one; the phone comes back
      cut or zero-padded on the right exactly when the characters that fit are digits. */
  lemma RoundTripFields(m: Message)
    requires |m.body| <= 1023
    ensures var r := Normalised(m);
            && Decode(Encode(m).value) == Ok(r)
            && r.body == m.body
            && r.header.msgId == m.header.msgId
            && r.header.version == m.header.version
            && r.header.flowNo == m.header.flowNo
            && r.header.subPackage == m.header.subPackage
            && r.header.encryption == m.header.encryption % 8
            && r.header.bodyLength == |m.body|
    ensures var digits := if m.header.version > 0 then 20 else 12;
            (Normalised(m).header.phone == Fit(m.header.phone, digits)
             <==> forall j :: 0 <= j < |m.header.phone| && j < digits ==> IsDigit(m.header.phone[j]))
  {
    DecodeEncode(m);
    PhoneRoundTrip(m.header.phone, PhoneLength(m.header.version));
  }

  /** Encode does not look at the property and length words it is given, so a message that
      Encode has already stamped encodes to the same bytes. */
  lemma EncodeIgnoresProperty(m: Message, property: word, bodyLength: word)
    ensures Encode(m.(header := m.header.(property := property, bodyLength := bodyLength))) == Encode(m)
  {
    if |m.body| <= MAX_BODY {
      var m' := m.(header := m.header.(property := property, bodyLength := bodyLength));
      assert EncodeHeader(Refreshed(m')) == EncodeHeader(Refreshed(m));
    }
  }

  // ---------------------------------------------------------------- encode after decode

  predicate Versioned(data: seq<byte>)
    requires |data| >= 4
  {
    VersionBit(Join(data[2], data[3]))
  }

  predicate Packaged(data: seq<byte>)
    requires |data| >= 4
  {
    SubPackageBit(Join(data[2], data[3]))
  }

  function VersionByte(data: seq<byte>): byte
    requires |data| >= 5
  {
    if Versioned(data) then data[4] else 0
  }

  function PhoneOffset(data: seq<byte>): nat
    requires |data| >= 4
  {
    if Versioned(data) then 5 else 4
  }

  /** Header length announced by the property word and the version byte. */
  function DeclaredHeader(data: seq<byte>): nat
    requires |data| >= 5
  {
    PhoneOffset(data) + PhoneLength(VersionByte(data)) + (if Packaged(data) then 6 else 2)
  }

  function DeclaredBody(data: seq<byte>): nat
    requires |data| >= 4
  {
    LengthField(Join(data[2], data[3]))
  }

  /** The header bytes are the ones Encode would write: bit 15 clear, decimal phone, a
      non-zero version byte where one is present, package fields 1 and 1 where present. */
  predicate CanonicalHeader(data: seq<byte>)
    requires |data| >= 5 && |data| >= DeclaredHeader(data)
  {
    var o := PhoneOffset(data);
    var n := PhoneLength(VersionByte(data));
    && !ReservedBit(Join(data[2], data[3]))
    && Decimal(data[o..o + n])
    && (Versioned(data) ==> data[4] != 0)
    && (Packaged(data) ==> data[o + n + 2..o + n + 6] == [0, 1, 0, 1])
  }

  /** DecodeHeader succeeds exactly when the declared header fits. */
  lemma DecodeHeaderAccepts(data: seq<byte>)
    ensures DecodeHeader(data).Ok? <==> |data| >= 12 && |data| >= DeclaredHeader(data)
    ensures DecodeHeader(data).Ok? ==> DecodeHeader(data).value.1 == DeclaredHeader(data)
    ensures DecodeHeader(data).Err? ==> DecodeHeader(data).error == InvalidMessage
  {
  }

  /** Re-encoding a decoded header restores its bytes exactly when they were canonical. */
  lemma ReencodedHeader(data: seq<byte>)
    requires |data| >= 12 && |data| >= DeclaredHeader(data)
    ensures DecodeHeader(data).Ok?
    ensures var h := DecodeHeader(data).value.0;
            EncodeHeader(Stamped(h, h.bodyLength)) == data[..DeclaredHeader(data)]
            <==> CanonicalHeader(data)
  {
    DecodedFields(data);
    var h, p := DecodeHeader(data).value.0, Join(data[2], data[3]);
    hide DecodeHeader;
    if !(Versioned(data) && data[4] == 0) {
      PropertyRepacks(p);
    }
    CanonicalFields(Stamped(h, h.bodyLength), data);
  }

  /** The fields of a header, by position in its bytes. */
  predicate FieldsOf(h: Header, data: seq<byte>)
    requires |data| >= 12 && |data| >= DeclaredHeader(data)
  {
    var o, n := PhoneOffset(data), PhoneLength(VersionByte(data));
    && h.msgId == Join(data[0], data[1])
    && h.version == VersionByte(data)
    && h.phone == Unpack(data[o..o + n])
    && h.flowNo == Join(data[o + n], data[o + n + 1])
    && h.subPackage == Packaged(data)
  }

  lemma DecodedFields(data: seq<byte>)
    requires |data| >= 12 && |data| >= DeclaredHeader(data)
    ensures DecodeHeader(data).Ok?
    ensures var h, p := DecodeHeader(data).value.0, Join(data[2], data[3]);
            && FieldsOf(h, data) && h.property == p
            && h.bodyLength == LengthField(p) && h.encryption == EncryptionField(p)
  {
    hide LengthField, EncryptionField, SubPackageBit, VersionBit, Join, Unpack;
  }

  /** A header with the fields of given bytes encodes to them exactly when they are canonical. */
  lemma CanonicalFields(s: Header, data: seq<byte>)
    requires |data| >= 12 && |data| >= DeclaredHeader(data) && FieldsOf(s, data)
    requires !(Versioned(data) && data[4] == 0) ==>
               (s.property == Join(data[2], data[3]) <==> !ReservedBit(Join(data[2], data[3])))
    ensures EncodeHeader(s) == data[..DeclaredHeader(data)] <==> CanonicalHeader(data)
  {
    hide EncodeHeader, Join, Pack, Unpack, Decimal, SubPackageBit, VersionBit, ReservedBit;
    var d, o, n := data[..DeclaredHeader(data)], PhoneOffset(data), PhoneLength(VersionByte(data));
    EncodeHeaderLength(s);
    if Versioned(data) && data[4] == 0 {
      assert |EncodeHeader(s)| < |d|;
    } else {
      HeaderBytes(s, d);
      assert d[o..o + n] == data[o..o + n];
      PackRoundTrip(data[o..o + n]);
      assert Packaged(data) ==> d[o + n + 2..] == data[o + n + 2..o + n + 6];
    }
  }

  /** Frames that Encode reproduces from their decoding: no flag between the two outer
      ones, and canonical header bytes. */
  predicate CanonicalFrame(f: seq<byte>)
    requires Decode(f).Ok?
  {
    var payload := Unescape(f[1..|f| - 1]).value;
    && FLAG !in f[1..|f| - 1]
    && |payload| >= 13
    && |payload| >= DeclaredHeader(payload)
    && CanonicalHeader(payload)
  }

  /** Encode after Decode gives back the accepted frame byte for byte exactly when it is
      canonical. */
  lemma EncodeDecode(f: seq<byte>)
    requires Decode(f).Ok?
    ensures Encode(Decode(f).value) == Ok(f) <==> CanonicalFrame(f)
  {
    var inner := f[1..|f| - 1];
    var payload := Unescape(inner).value;
    var content := payload[..|payload| - 1];
    var m := Decode(f).value;
    DecodedParts(payload, m);
    EncodeIsFrame(m);
    SameFrame(Escape(Payload(m)), f);
    EscapeBijection(Payload(m), inner);
    SamePrefix(payload);
  }

  /** An accepted payload is what its message re-encodes to exactly when its header is canonical. */
  lemma DecodedParts(payload: seq<byte>, m: Message)
    requires DecodePayload(payload) == Ok(m)
    ensures |payload| >= 13 && |payload| - 1 >= DeclaredHeader(payload[..|payload| - 1])
    ensures |m.body| <= MAX_BODY
    ensures Payload(m) == payload <==> CanonicalHeader(payload[..|payload| - 1])
  {
    var content, c := payload[..|payload| - 1], payload[|payload| - 1];
    DecodeHeaderAccepts(content);
    var hl := DeclaredHeader(content);
    assert content == content[..hl] + m.body;
    assert payload == content[..hl] + m.body + [c];
    DecodedRefreshed(content, m);
    SamePayload(EncodeHeader(Refreshed(m)), content[..hl], m.body, c);
  }

  lemma DecodedRefreshed(content: seq<byte>, m: Message)
    requires DecodeHeader(content).Ok? && m.header == DecodeHeader(content).value.0
    requires |m.body| == m.header.bodyLength
    ensures |content| >= DeclaredHeader(content) && |m.body| <= MAX_BODY
    ensures EncodeHeader(Refreshed(m)) == content[..DeclaredHeader(content)] <==> CanonicalHeader(content)
  {
    DecodeHeaderAccepts(content);
    ReencodedHeader(content);
  }

  lemma SameFrame(inner: seq<byte>, f: seq<byte>)
    requires |f| >= 2 && f[0] == FLAG && f[|f| - 1] == FLAG
    ensures [FLAG] + inner + [FLAG] == f <==> inner == f[1..|f| - 1]
  {
    assert f == [FLAG] + f[1..|f| - 1] + [FLAG];
    var g := [FLAG] + inner + [FLAG];
    assert g[1..|g| - 1] == inner;
  }

  lemma SamePayload(header: seq<byte>, header': seq<byte>, body: seq<byte>, c: byte)
    requires c == Checksum(header' + body)
    ensures header + body + [Checksum(header + body)] == header' + body + [c] <==> header == header'
  {
    var p, p' := header + body + [Checksum(header + body)], header' + body + [c];
    if p == p' {
      assert |header| == |header'|;
      assert header == p[..|header|] && header' == p'[..|header'|];
    }
  }

  /** The header predicates look only at the declared header bytes. */
  lemma SamePrefix(payload: seq<byte>)
    requires |payload| >= 13
    ensures var content := payload[..|payload| - 1];
            && DeclaredHeader(payload) == DeclaredHeader(content)
            && (|content| >= DeclaredHeader(content) ==> (CanonicalHeader(payload) <==> CanonicalHeader(content)))
  {
    var content := payload[..|payload| - 1];
    if |content| >= DeclaredHeader(content) {
      var o := PhoneOffset(content);
      var n := PhoneLength(VersionByte(content));
      SamePart(payload, o, o + n);
      if Packaged(content) {
        SamePart(payload, o + n + 2, o + n + 6);
      }
    }
  }

  lemma SamePart(payload: seq<byte>, i: nat, j: nat)
    requires i <= j < |payload|
    ensures payload[..|payload| - 1][i..j] == payload[i..j]
  {
  }

  // ---------------------------------------------------------------- acceptance

  /** The accepted inputs, stated without reference to the parsing order. */
  predicate Acceptable(data: seq<byte>) {
    && |data| >= 2 && data[0] == FLAG && data[|data| - 1] == FLAG
    && Unescape(data[1..|data| - 1]).Ok?
    && var p := Unescape(data[1..|data| - 1]).value;
       && |p| >= 13
       && Checksum(p) == 0
       && DeclaredHeader(p) + DeclaredBody(p) + 1 == |p|
  }

  lemma DecodeAccepts(data: seq<byte>)
    ensures Decode(data).Ok? <==> Acceptable(data)
  {
    hide Checksum, Unescape, Unpack;
    if |data| >= 2 && Unescape(data[1..|data| - 1]).Ok? {
      var p := Unescape(data[1..|data| - 1]).value;
      if |p| >= 13 {
        var content := p[..|p| - 1];
        ChecksumByte(p);
        DecodeHeaderAccepts(content);
        SamePrefix(p);
      }
    }
  }

  /** Which error Decode reports, for every rejected input. */
  lemma DecodeErrors(data: seq<byte>)
    requires Decode(data).Err?
    ensures var flags := |data| >= 2 && data[0] == FLAG && data[|data| - 1] == FLAG;
            var stuffed := flags && Unescape(data[1..|data| - 1]).Ok?;
            var p := if stuffed then Unescape(data[1..|data| - 1]).value else [];
            Decode(data).error ==
              if |data| < 2 then InvalidMessage
              else if !flags then InvalidFlag
              else if !stuffed then InvalidEscape
              else if |p| >= 13 && Checksum(p) != 0 then InvalidChecksum
              else InvalidMessage
  {
    hide Checksum, Unescape, DecodeHeader;
    if |data| >= 2 {
      UnescapeError(data[1..|data| - 1]);
      if Unescape(data[1..|data| - 1]).Ok? {
        var p := Unescape(data[1..|data| - 1]).value;
        if |p| >= 13 {
          var content := p[..|p| - 1];
          ChecksumByte(p);
          DecodeHeaderAccepts(content);
        }
      }
    }
  }

  /** Altering exactly one payload byte of an accepted message is always reported as a
      checksum error, whichever byte it is. */
  lemma SingleByteAlteration(payload: seq<byte>, i: nat, b: byte)
    requires DecodePayload(payload).Ok?
    requires i < |payload| && b != payload[i]
    ensures Decode([FLAG] + Escape(payload[i := b]) + [FLAG]) == Err(InvalidChecksum)
  {
    var q := payload[i := b];
    DecodeFrame(q);
    ChecksumDetects(payload, i, b);
    ChecksumByte(payload);
    ChecksumByte(q);
  }

  /** The checksum comparison of Decode is a test of the XOR over the whole payload. */
  lemma ChecksumByte(payload: seq<byte>)
    requires |payload| > 0
    ensures payload[|payload| - 1] == Checksum(payload[..|payload| - 1]) <==> Checksum(payload) == 0
  {
    var content, c := payload[..|payload| - 1], payload[|payload| - 1];
    assert payload == content + [c];
    ChecksumZero(content, c);
  }
}
