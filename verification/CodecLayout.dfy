/** The wire format in numbers: which byte of a frame carries what, on the way out and on the
    way in. */
module CodecLayout {
  import opened Bits
  import opened Types
  import opened Wire
  import opened Escaping
  import opened Bcd
  import opened Codec
  import opened CodecTheorems

  // ---------------------------------------------------------------- phone numbers

  /** Each byte of a packed phone holds two of its characters, the earlier in the high four
      bits; characters past the end count as '0'. */
  lemma PackedDigits(s: seq<byte>, length: nat, i: nat)
    requires i < length && DigitsUpTo(s, 2 * length)
    ensures |Pack(s, length)| == length
    ensures Pack(s, length)[i]
         == 16 * (if 2 * i < |s| then s[2 * i] - 0x30 else 0) + (if 2 * i + 1 < |s| then s[2 * i + 1] - 0x30 else 0)
  {
    hide Or, DigitAt, PackByte;
    var h, l := DigitAt(s, 2 * i), DigitAt(s, 2 * i + 1);
    assert Pack(s, length)[i] == PackByte(h, l);
    DigitIs(s, 2 * i);
    DigitIs(s, 2 * i + 1);
    SideBySide(h, l);
  }

  lemma DigitIs(s: seq<byte>, j: nat)
    requires j < |s| ==> IsDigit(s[j])
    ensures DigitAt(s, j) == (if j < |s| then s[j] - 0x30 else 0) && DigitAt(s, j) <= 9
  {
  }

  lemma SideBySide(h: byte, l: byte)
    requires h <= 9 && l <= 9
    ensures PackByte(h, l) == 16 * h + l
  {
  }

  /** Any characters at all are packed as (high << 4) | low in byte arithmetic. */
  lemma PackedBytes(s: seq<byte>, length: nat, i: nat)
    requires i < length
    ensures Pack(s, length)[i]
         == Or(Shl(if 2 * i < |s| then (s[2 * i] as int - 0x30) % 0x100 else 0, 4) % 0x100,
               if 2 * i + 1 < |s| then (s[2 * i + 1] as int - 0x30) % 0x100 else 0)
  {
    hide Or, Shl;
    PackByteIsShift(DigitAt(s, 2 * i), DigitAt(s, 2 * i + 1));
  }

  /** Each byte unpacks to the characters of its high and then its low four bits, of those that
      are at most 9. */
  lemma UnpackedByte(b: byte, rest: seq<byte>)
    ensures Unpack([]) == []
    ensures Unpack([b] + rest)
         == (if b / 16 <= 9 then [0x30 + b / 16] else []) + (if b % 16 <= 9 then [0x30 + b % 16] else []) + Unpack(rest)
  {
    assert ([b] + rest)[1..] == rest;
  }

  // ---------------------------------------------------------------- encoding

  /** The bytes of a header, by position. */
  predicate HeaderLaidOut(h: Header, length: nat, d: seq<byte>) {
    var o, n := if h.version > 0 then 5 else 4, if h.version > 0 then 10 else 6;
    && |d| == o + n + (if h.subPackage then 6 else 2)
    && 256 * d[0] as int + d[1] == h.msgId
    && 256 * d[2] as int + d[3]
       == length + 1024 * (h.encryption % 8)
          + (if h.subPackage then 0x2000 else 0) + (if h.version > 0 then 0x4000 else 0)
    && (h.version > 0 ==> d[4] == h.version)
    && d[o..o + n] == Pack(h.phone, n)
    && 256 * d[o + n] as int + d[o + n + 1] == h.flowNo
    && (h.subPackage ==> d[o + n + 2..] == [0, 1, 0, 1])
  }

  /** The bytes of a message between its flags, before stuffing: the header, the body, and the
      exclusive-or of them all. */
  predicate LaidOut(m: Message, p: seq<byte>) {
    var e := (if m.header.version > 0 then 15 else 10) + if m.header.subPackage then 6 else 2;
    && |p| == e + |m.body| + 1
    && HeaderLaidOut(m.header, |m.body|, p[..e])
    && p[e..|p| - 1] == m.body
    && p[|p| - 1] == Checksum(p[..|p| - 1])
  }

  lemma PropertyInNumbers(length: word, sub: bool, e: byte, ver: bool)
    requires length <= 1023
    ensures PropertyOf(length, sub, e, ver)
         == length + 1024 * (e % 8) + (if sub then 0x2000 else 0) + (if ver then 0x4000 else 0)
  {
  }

  lemma HeaderLayout(h: Header, length: word)
    requires length <= 1023
    ensures HeaderLaidOut(h, length, EncodeHeader(Stamped(h, length)))
  {
    var h' := Stamped(h, length);
    PropertyInNumbers(length, h.subPackage, h.encryption, h.version > 0);
    EncodeHeaderLength(h');
    hide EncodeHeader, Pack, PropertyOf;
    HeaderBytes(h', EncodeHeader(h'));
  }

  lemma PayloadParts(header: seq<byte>, body: seq<byte>, c: byte)
    ensures var p := header + body + [c];
            && p[..|header|] == header && p[|header|..|p| - 1] == body
            && p[..|p| - 1] == header + body && p[|p| - 1] == c
  {
  }

  /** Encode puts the header, the body and the checksum where the format wants them, stuffs
      them, and sets 0x7E on both sides. */
  lemma EncodedLayout(m: Message) returns (p: seq<byte>)
    requires |m.body| <= 1023
    ensures Encode(m) == Ok([0x7E] + Escape(p) + [0x7E])
    ensures LaidOut(m, p)
  {
    p := Payload(m);
    EncodeIsFrame(m);
    var header := EncodeHeader(Refreshed(m));
    EncodeHeaderLength(Refreshed(m));
    HeaderLayout(m.header, |m.body|);
    hide HeaderLaidOut, EncodeHeader;
    PayloadParts(header, m.body, Checksum(header + m.body));
  }

  // ---------------------------------------------------------------- decoding

  /** Where the header of a payload ends, by its property word and its version byte. */
  function HeaderEnd(p: seq<byte>): nat
    requires |p| >= 5
  {
    var property := 256 * p[2] as int + p[3];
    var version := if And(property, 0x4000) != 0 then p[4] else 0;
    (if And(property, 0x4000) != 0 then 5 else 4) + (if version > 0 then 10 else 6)
    + (if And(property, 0x2000) != 0 then 6 else 2)
  }

  /** The header that bytes open with, by position. */
  predicate HeaderReadFrom(d: seq<byte>, h: Header)
    requires |d| >= 5 && |d| >= HeaderEnd(d)
  {
    var property := 256 * d[2] as int + d[3];
    var versioned := And(property, 0x4000) != 0;
    var o, n := if versioned then 5 else 4, if versioned && d[4] > 0 then 10 else 6;
    && h.msgId == 256 * d[0] as int + d[1]
    && h.property == property
    && h.version == (if versioned then d[4] else 0)
    && h.phone == Unpack(d[o..o + n])
    && h.flowNo == 256 * d[o + n] as int + d[o + n + 1]
    && h.bodyLength == And(property, 0x03FF)
    && h.encryption == Shr(And(property, 0x1C00), 10)
    && h.subPackage == (And(property, 0x2000) != 0)
  }

  /** A payload is filled by the header, the body that the header announces, and one byte. */
  predicate Filled(p: seq<byte>) {
    |p| >= 13 && |p| == HeaderEnd(p) + And(256 * p[2] as int + p[3], 0x03FF) + 1
  }

  /** The message that a payload carries, by position. */
  predicate ReadFrom(p: seq<byte>, m: Message)
    requires Filled(p)
  {
    HeaderReadFrom(p, m.header) && m.body == p[HeaderEnd(p)..|p| - 1]
  }

  lemma DeclaredInNumbers(p: seq<byte>)
    requires |p| >= 5
    ensures DeclaredHeader(p) == HeaderEnd(p) && DeclaredBody(p) == And(256 * p[2] as int + p[3], 0x03FF)
  {
    FieldsAreMasks(Join(p[2], p[3]));
    hide And, LengthField, VersionBit, SubPackageBit;
  }

  lemma HeaderRead(d: seq<byte>)
    requires |d| >= 12 && |d| >= HeaderEnd(d)
    ensures DecodeHeader(d).Ok? && DecodeHeader(d).value.1 == HeaderEnd(d)
    ensures HeaderReadFrom(d, DecodeHeader(d).value.0)
  {
    FieldsAreMasks(Join(d[2], d[3]));
    DeclaredInNumbers(d);
    DecodeHeaderAccepts(d);
    hide And, Shr, Unpack, LengthField, EncryptionField, VersionBit, SubPackageBit, DeclaredHeader, DecodeHeader;
    DecodedFields(d);
  }

  lemma Inside(p: seq<byte>, end: nat, i: nat, j: nat)
    requires i <= j <= end <= |p|
    ensures p[..end][i..j] == p[i..j]
  {
  }

  lemma HeaderPrefix(p: seq<byte>, h: Header)
    requires |p| >= 13 && |p| > HeaderEnd(p)
    ensures HeaderEnd(p[..|p| - 1]) == HeaderEnd(p)
    ensures HeaderReadFrom(p[..|p| - 1], h) <==> HeaderReadFrom(p, h)
  {
    hide And, Shr, Unpack;
    var versioned := And(256 * p[2] as int + p[3], 0x4000) != 0;
    var o, n := if versioned then 5 else 4, if versioned && p[4] > 0 then 10 else 6;
    assert HeaderEnd(p) >= o + n;
    Inside(p, |p| - 1, o, o + n);
  }

  /** An accepted payload is filled and reads as its message. */
  lemma PayloadRead(p: seq<byte>, m: Message)
    requires DecodePayload(p) == Ok(m)
    ensures Filled(p) && ReadFrom(p, m) && Checksum(p) == 0
  {
    var content := p[..|p| - 1];
    ChecksumByte(p);
    DecodeHeaderAccepts(content);
    DeclaredInNumbers(content);
    DeclaredInNumbers(p);
    hide Checksum, HeaderReadFrom, HeaderEnd, And, DecodeHeader;
    HeaderRead(content);
    HeaderPrefix(p, m.header);
    HeaderLengths(content);
    assert content[HeaderEnd(p)..] == p[HeaderEnd(p)..|p| - 1];
  }

  lemma HeaderLengths(content: seq<byte>)
    requires |content| >= 12 && DecodeHeader(content).Ok?
    requires |content| >= HeaderEnd(content) && HeaderReadFrom(content, DecodeHeader(content).value.0)
    ensures DecodeHeader(content).value.0.bodyLength == And(256 * content[2] as int + content[3], 0x03FF)
  {
  }

  /** A payload reads as one message only. */
  lemma ReadOnce(p: seq<byte>, m: Message, m': Message)
    requires Filled(p) && ReadFrom(p, m) && ReadFrom(p, m')
    ensures m == m'
  {
    hide And, Shr, Unpack;
  }

  /** Decode returns m exactly for the byte strings that have 0x7E on both sides of a stuffed
      payload which exclusive-ors to zero, is filled, and carries m by position. */
  lemma DecodedLayout(data: seq<byte>, m: Message)
    ensures Decode(data) == Ok(m) <==>
            && |data| >= 2 && data[0] == 0x7E && data[|data| - 1] == 0x7E
            && Unescape(data[1..|data| - 1]).Ok?
            && var p := Unescape(data[1..|data| - 1]).value;
               Checksum(p) == 0 && Filled(p) && ReadFrom(p, m)
  {
    DecodeAccepts(data);
    hide Checksum, Unescape, ReadFrom, Filled, DecodePayload;
    if |data| >= 2 && data[0] == 0x7E && data[|data| - 1] == 0x7E && Unescape(data[1..|data| - 1]).Ok? {
      var p := Unescape(data[1..|data| - 1]).value;
      if Decode(data).Ok? {
        PayloadRead(p, Decode(data).value);
        if Filled(p) && ReadFrom(p, m) {
          ReadOnce(p, m, Decode(data).value);
        }
      } else if Filled(p) {
        FilledDeclares(p);
      }
    }
  }

  lemma FilledDeclares(p: seq<byte>)
    requires Filled(p)
    ensures |p| >= 13 && DeclaredHeader(p) + DeclaredBody(p) + 1 == |p|
  {
    DeclaredInNumbers(p);
  }

  // ---------------------------------------------------------------- the check byte

  /** How many bytes have binary digit k set. */
  function SetAt(s: seq<byte>, k: nat): nat {
    if s == [] then 0 else Bit(s[0], k) + SetAt(s[1..], k)
  }

  /** Each binary digit of the checksum is the parity of that digit over all bytes. */
  lemma {:induction false} ChecksumParity(s: seq<byte>, k: nat)
    ensures Bit(Checksum(s), k) == SetAt(s, k) % 2
  {
    if s == [] {
      ZeroDigits(k);
    } else {
      ChecksumParity(s[1..], k);
      DigitByDigit(s[0], Checksum(s[1..]), k);
      DigitByDigit(Checksum(s), 0, k);
    }
  }

  lemma {:induction false} ZeroDigits(k: nat)
    ensures Bit(0, k) == 0
  {
    if k > 0 {
      ZeroDigits(k - 1);
    }
  }
}
