/** The codec of protocol/codec.go as the program runs it: loops that append to pooled
    buffers, results copied out of them, and a header whose property word Encode rewrites. */
module CodecImpl {
  import opened Bits
  import opened Types
  import opened Wire
  import E = Escaping
  import opened Bcd
  import C = Codec
  import opened Buffers

  class HeaderObject {
    var msgId: word
    var property: word
    var version: byte
    var phone: seq<byte>
    var flowNo: word
    var bodyLength: word
    var subPackage: bool
    var encryption: byte

    constructor ()
      ensures Value() == C.Header(0, 0, 0, [], 0, 0, false, 0)
    {
      msgId, property, version, phone, flowNo, bodyLength, subPackage, encryption := 0, 0, 0, [], 0, 0, false, 0;
    }

    ghost function Value(): C.Header
      reads this
    {
      C.Header(msgId, property, version, phone, flowNo, bodyLength, subPackage, encryption)
    }
  }

  class MessageObject {
    var header: HeaderObject?
    var body: seq<byte>
    var raw: seq<byte>

    constructor (header: HeaderObject?, body: seq<byte>, raw: seq<byte>)
      ensures this.header == header && this.body == body && this.raw == raw
    {
      this.header := header;
      this.body := body;
      this.raw := raw;
    }

    ghost function Value(): C.Message
      requires header != null
      reads this, header
    {
      C.Message(header.Value(), body)
    }
  }

  class Codec {
    const pool: Pool

    ghost predicate Valid()
      reads pool, pool.free
    {
      pool.Valid() && pool.Clean()
    }

    constructor ()
      ensures Valid() && fresh(pool) && pool.free == {} && pool.stores == {}
    {
      pool := new Pool();
    }

    /** What is deferred after each Get: the buffer is emptied and put back. */
    method Release(b: Buffer)
      requires Valid() && pool.Lent(b)
      modifies pool, b
      ensures Valid() && pool.free == old(pool.free) + {b} && pool.stores == old(pool.stores) + {b.store}
      ensures b.store == old(b.store)
    {
      b.Reset();
      pool.Put(b);
    }

    // ---- byte stuffing

    method Escape(data: seq<byte>) returns (r: array<byte>)
      requires Valid()
      modifies pool, pool.free, pool.stores
      ensures Valid() && fresh(pool.free - old(pool.free)) && fresh(pool.stores - old(pool.stores))
      ensures fresh(r) && r !in pool.stores && r[..] == E.Escape(data)
    {
      var buf := pool.Get();
      EscapeInto(buf, data);
      r := buf.Copy();
      Release(buf);
    }

    static method EscapeInto(buf: Buffer, data: seq<byte>)
      requires buf.Valid() && buf.Contents() == []
      modifies buf, buf.store
      ensures buf.Valid() && (buf.store == old(buf.store) || fresh(buf.store))
      ensures buf.Contents() == E.Escape(data)
    {
      for i := 0 to |data|
        invariant buf.Valid() && (buf.store == old(buf.store) || fresh(buf.store))
        invariant buf.Contents() == E.Escape(data[..i])
      {
        EscapeNext(data, i);
        match EscapeMap(data[i])
        case Some(code) => buf.WriteByte(ESCAPE); buf.WriteByte(code);
        case None => buf.WriteByte(data[i]);
      }
      assert data[..|data|] == data;
    }

    method Unescape(data: seq<byte>) returns (r: Result<array<byte>>)
      requires Valid()
      modifies pool, pool.free, pool.stores
      ensures Valid() && fresh(pool.free - old(pool.free)) && fresh(pool.stores - old(pool.stores))
      ensures match r
              case Ok(a) => fresh(a) && a !in pool.stores && E.Unescape(data) == Ok(a[..])
              case Err(e) => E.Unescape(data) == Err(e)
    {
      var buf := pool.Get();
      var ok := UnescapeInto(buf, data);
      if ok {
        var a := buf.Copy();
        r := Ok(a);
      } else {
        r := Err(InvalidEscape);
      }
      Release(buf);
    }

    static method UnescapeInto(buf: Buffer, data: seq<byte>) returns (ok: bool)
      requires buf.Valid() && buf.Contents() == []
      modifies buf, buf.store
      ensures buf.Valid() && (buf.store == old(buf.store) || fresh(buf.store))
      ensures E.Unescape(data) == if ok then Ok(buf.Contents()) else Err(InvalidEscape)
    {
      var i := 0;
      PrependNothing(data);
      while i < |data|
        invariant i <= |data|
        invariant buf.Valid() && (buf.store == old(buf.store) || fresh(buf.store))
        invariant E.Unescape(data) == E.Prepend(buf.Contents(), E.Unescape(data[i..]))
      {
        UnescapeNext(data, i, buf.Contents());
        if data[i] == ESCAPE {
          if i + 1 >= |data| {
            return false;
          }
          match UnescapeMap(data[i + 1])
          case Some(b) =>
            buf.WriteByte(b);
            i := i + 1;
          case None =>
            return false;
        } else {
          buf.WriteByte(data[i]);
        }
        i := i + 1;
      }
      assert buf.Contents() + [] == buf.Contents();
      return true;
    }

    // ---- packed decimals and the checksum

    static method EncodeBCD(s: seq<byte>, length: nat) returns (r: array<byte>)
      ensures fresh(r) && r[..] == Pack(s, length)
    {
      hide Or, Shl, PackByte;
      r := new byte[length](_ => 0);
      assert PackByte(0, 0) == 0 by { PackNothing(); }
      var i := 0;
      while i < length && i * 2 < |s|
        invariant i <= length
        invariant forall j :: 0 <= j < i ==> r[j] == Pack(s, length)[j]
        invariant forall j :: i <= j < length ==> r[j] == 0
      {
        var high: byte, low: byte := 0, 0;
        if i * 2 < |s| {
          high := (s[i * 2] - ZERO) % 0x100;
        }
        if i * 2 + 1 < |s| {
          low := (s[i * 2 + 1] - ZERO) % 0x100;
        }
        PackByteIsShift(high, low);
        assert high == DigitAt(s, 2 * i) && low == DigitAt(s, 2 * i + 1);
        r[i] := Or(Shl(high, 4) % 0x100, low);
        i := i + 1;
      }
      assert forall j :: i <= j < length ==> Pack(s, length)[j] == PackByte(0, 0);
    }

    static method DecodeBCD(data: seq<byte>) returns (r: seq<byte>)
      ensures r == Unpack(data)
    {
      r := [];
      assert Unpack(data[..0]) == [];
      hide And, Shr, Unpack, UnpackByte;
      for i := 0 to |data|
        invariant r == Unpack(data[..i])
      {
        var b := data[i];
        ghost var before := r;
        DigitsOf(b);
        var high, low := And(Shr(b, 4), 0x0F), And(b, 0x0F);
        UnpackNext(data, i);
        if high <= 9 {
          r := r + [ZERO + high];
        }
        if low <= 9 {
          r := r + [ZERO + low];
        }
        assert r == before + UnpackByte(b);
      }
      assert data[..|data|] == data;
    }

    static method CalculateChecksum(data: seq<seq<byte>>) returns (checksum: byte)
      ensures checksum == Checksum(Joined(data))
    {
      checksum := 0;
      for k := 0 to |data|
        invariant checksum == Checksum(Joined(data[..k]))
      {
        var d := data[k];
        assert Joined(data[..k]) + d[..0] == Joined(data[..k]);
        for i := 0 to |d|
          invariant checksum == Checksum(Joined(data[..k]) + d[..i])
        {
          ChecksumNext(Joined(data[..k]), d, i);
          checksum := XorByte(checksum, d[i]);
        }
        JoinedNext(data, k);
      }
      assert data[..|data|] == data;
    }

    // ---- headers

    static method WriteWord(buf: Buffer, w: word)
      requires buf.Valid()
      modifies buf, buf.store
      ensures buf.Valid() && (buf.store == old(buf.store) || fresh(buf.store))
      ensures buf.Contents() == old(buf.Contents()) + [Hi(w), Lo(w)]
    {
      buf.WriteByte(Hi(w));
      buf.WriteByte(Lo(w));
    }

    method EncodeHeader(header: HeaderObject) returns (r: array<byte>)
      requires Valid()
      modifies pool, pool.free, pool.stores
      ensures Valid() && fresh(pool.free - old(pool.free)) && fresh(pool.stores - old(pool.stores))
      ensures fresh(r) && r !in pool.stores && r[..] == C.EncodeHeader(header.Value())
    {
      var buf := pool.Get();
      HeaderInto(buf, header);
      r := buf.Copy();
      Release(buf);
    }

    static method HeaderInto(buf: Buffer, header: HeaderObject)
      requires buf.Valid() && buf.Contents() == []
      modifies buf, buf.store
      ensures buf.Valid() && (buf.store == old(buf.store) || fresh(buf.store))
      ensures buf.Contents() == C.EncodeHeader(header.Value())
    {
      HeadAndTail(header.Value());
      hide Pack, C.EncodeHeader, Buffer.Contents, Buffer.Valid;
      HeadInto(buf, header);
      var phoneLen := PHONE_LENGTH_LEGACY;
      if header.version > 0 {
        phoneLen := PHONE_LENGTH_2019;
      }
      var phoneBytes := EncodeBCD(header.phone, phoneLen);
      buf.Write(phoneBytes[..]);
      TailInto(buf, header);
    }

    static method HeadInto(buf: Buffer, header: HeaderObject)
      requires buf.Valid()
      modifies buf, buf.store
      ensures buf.Valid() && (buf.store == old(buf.store) || fresh(buf.store))
      ensures buf.Contents() == old(buf.Contents()) + Head(header.Value())
    {
      hide Buffer.Contents, Buffer.Valid;
      WriteWord(buf, header.msgId);
      WriteWord(buf, header.property);
      if header.version > 0 {
        buf.WriteByte(header.version);
      }
    }

    static method TailInto(buf: Buffer, header: HeaderObject)
      requires buf.Valid()
      modifies buf, buf.store
      ensures buf.Valid() && (buf.store == old(buf.store) || fresh(buf.store))
      ensures buf.Contents() == old(buf.Contents()) + Tail(header.Value())
    {
      hide Buffer.Contents, Buffer.Valid;
      WriteWord(buf, header.flowNo);
      if header.subPackage {
        WriteWord(buf, 1);
        WriteWord(buf, 1);
      }
    }

    static method DecodeHeader(data: seq<byte>) returns (r: Result<(HeaderObject, nat)>)
      ensures match r
              case Ok((h, n)) => fresh(h) && C.DecodeHeader(data) == Ok((h.Value(), n))
              case Err(e) => C.DecodeHeader(data) == Err(e)
    {
      if |data| < 12 {
        return Err(InvalidMessage);
      }
      DecodeSplits(data);
      hide C.DecodeHeader, Rest;
      var header := new HeaderObject();
      var offset := 0;
      header.msgId := Join(data[offset], data[offset + 1]);
      offset := offset + 2;
      header.property := Join(data[offset], data[offset + 1]);
      offset := offset + 2;
      FieldsAreMasks(header.property);
      hide And, Shr, VersionBit;
      if And(header.property, VERSION_FLAG) != 0 {
        if |data| < offset + 1 {
          return Err(InvalidMessage);
        }
        header.version := data[offset];
        offset := offset + 1;
      }
      var rest := DecodeRest(header, data, offset);
      match rest
      case Err(e) => return Err(e);
      case Ok(n) => return Ok((header, n));
    }

    /** The phone, the flow number, the fields of the property word and the package fields. */
    static method DecodeRest(header: HeaderObject, data: seq<byte>, start: nat) returns (r: Result<nat>)
      requires start <= |data|
      modifies header
      ensures match r
              case Ok(n) => Rest(data, old(header.Value()), start) == Ok((header.Value(), n))
              case Err(e) => Rest(data, old(header.Value()), start) == Err(e)
    {
      var offset := start;
      var phoneLen := PHONE_LENGTH_LEGACY;
      if header.version > 0 {
        phoneLen := PHONE_LENGTH_2019;
      }
      if |data| < offset + phoneLen + 2 {
        return Err(InvalidMessage);
      }
      FieldsAreMasks(header.property);
      hide And, Shr, Unpack, LengthField, EncryptionField, SubPackageBit;
      header.phone := DecodeBCD(data[offset..offset + phoneLen]);
      offset := offset + phoneLen;
      header.flowNo := Join(data[offset], data[offset + 1]);
      offset := offset + 2;
      header.bodyLength := And(header.property, LENGTH_MASK);
      header.encryption := Shr(And(header.property, ENCRYPTION_MASK), 10);
      header.subPackage := And(header.property, SUBPACKAGE_FLAG) != 0;
      if header.subPackage {
        if |data| < offset + 4 {
          return Err(InvalidMessage);
        }
        offset := offset + 4;
      }
      return Ok(offset);
    }

    // ---- messages

    /** The property word as the masks and shifts put it together. */
    static method Property(header: HeaderObject, bodyLen: word) returns (p: word)
      ensures p == PropertyOf(bodyLen, header.subPackage, header.encryption, header.version > 0)
    {
      PropertyIsMasks(bodyLen, header.subPackage, header.encryption, header.version > 0);
      hide And, Or, Shl;
      var q: nat := And(bodyLen, LENGTH_MASK);
      if header.subPackage {
        q := Or(q, SUBPACKAGE_FLAG);
      } else {
        OrNothing(q);
      }
      q := Or(q, Shl(And(header.encryption, 0x07), 10));
      if header.version > 0 {
        q := Or(q, VERSION_FLAG);
      } else {
        OrNothing(q);
      }
      p := q;
    }

    /** One stuffed part joins the frame; its own buffer comes and goes meanwhile. */
    method Append(buf: Buffer, data: seq<byte>)
      requires Valid() && pool.Lent(buf)
      modifies pool, pool.free, pool.stores, buf, buf.store
      ensures Valid() && fresh(pool.free - old(pool.free)) && fresh(pool.stores - old(pool.stores))
      ensures pool.Lent(buf) && (buf.store == old(buf.store) || fresh(buf.store))
      ensures buf.Contents() == old(buf.Contents()) + E.Escape(data)
    {
      hide E.Escape, Buffer.Contents, Pool.Valid, Pool.Clean;
      var escaped := Escape(data);
      buf.Write(escaped[..]);
    }

    method Assemble(buf: Buffer, header: seq<byte>, body: seq<byte>, checksum: byte)
      requires Valid() && pool.Lent(buf) && buf.Contents() == []
      modifies pool, pool.free, pool.stores, buf, buf.store
      ensures Valid() && fresh(pool.free - old(pool.free)) && fresh(pool.stores - old(pool.stores))
      ensures pool.Lent(buf) && (buf.store == old(buf.store) || fresh(buf.store))
      ensures buf.Contents() == [FLAG] + E.Escape(header) + E.Escape(body) + E.Escape([checksum]) + [FLAG]
    {
      hide E.Escape, Buffer.Contents, Buffer.Valid, Pool.Valid, Pool.Clean;
      buf.WriteByte(FLAG);
      Append(buf, header);
      Append(buf, body);
      Append(buf, [checksum]);
      buf.WriteByte(FLAG);
    }

    /** The refreshed header, the checksum and the frame around them. */
    method Compose(buf: Buffer, header: HeaderObject, body: seq<byte>)
      requires Valid() && pool.Lent(buf) && buf.Contents() == []
      modifies pool, pool.free, pool.stores, buf, buf.store
      ensures Valid() && fresh(pool.free - old(pool.free)) && fresh(pool.stores - old(pool.stores))
      ensures pool.Lent(buf) && (buf.store == old(buf.store) || fresh(buf.store))
      ensures buf.Contents() == Framed(C.EncodeHeader(header.Value()), body)
    {
      hide C.EncodeHeader, E.Escape, Checksum, Joined, Buffer.Contents, Pool.Valid, Pool.Clean;
      var headerBytes := EncodeHeader(header);
      ghost var bytes := headerBytes[..];
      var checksum := CalculateChecksum([headerBytes[..], body]);
      JoinedTwo(bytes, body);
      Assemble(buf, headerBytes[..], body, checksum);
    }

    /** Encode between its Get and its deferred release. */
    method EncodeInto(buf: Buffer, msg: MessageObject) returns (r: Result<array<byte>>)
      requires Valid() && pool.Lent(buf) && buf.Contents() == [] && msg.header != null
      modifies pool, pool.free, pool.stores, buf, buf.store, msg.header
      ensures Valid() && fresh(pool.free - old(pool.free)) && fresh(pool.stores - old(pool.stores))
      ensures pool.Lent(buf) && (buf.store == old(buf.store) || fresh(buf.store))
      ensures match r
              case Ok(a) => fresh(a) && a != buf.store && a !in pool.stores && C.Encode(old(msg.Value())) == Ok(a[..])
              case Err(e) => C.Encode(old(msg.Value())) == Err(e)
      ensures msg.header.Value() ==
                if |msg.body| <= MAX_BODY then C.Refreshed(old(msg.Value())) else old(msg.header.Value())
    {
      hide C.EncodeHeader, E.Escape, Checksum, PropertyOf, Buffer.Contents, Pool.Valid, Pool.Clean;
      var headerBytes := EncodeHeader(msg.header);
      var bodyLen := |msg.body|;
      if bodyLen > 1023 {
        return Err(MessageTooLong);
      }
      msg.header.property := Property(msg.header, bodyLen);
      Compose(buf, msg.header, msg.body);
      var result := buf.Copy();
      return Ok(result);
    }

    method Encode(msg: MessageObject?) returns (r: Result<array<byte>>)
      requires Valid()
      modifies pool, pool.free, pool.stores, if msg != null && msg.header != null then {msg.header} else {}
      ensures Valid() && fresh(pool.free - old(pool.free)) && fresh(pool.stores - old(pool.stores))
      ensures msg == null || msg.header == null ==> r == Err(InvalidMessage)
      ensures msg != null && msg.header != null ==>
                (match r
                 case Ok(a) => fresh(a) && a !in pool.stores && C.Encode(old(msg.Value())) == Ok(a[..])
                 case Err(e) => C.Encode(old(msg.Value())) == Err(e))
      ensures msg != null && msg.header != null ==>
                msg.header.Value() ==
                  if |msg.body| <= MAX_BODY then C.Refreshed(old(msg.Value())) else old(msg.header.Value())
    {
      if msg == null || msg.header == null {
        return Err(InvalidMessage);
      }
      hide C.Encode, C.Refreshed;
      var buf := pool.Get();
      r := EncodeInto(buf, msg);
      Release(buf);
    }

    method Decode(data: seq<byte>) returns (r: Result<MessageObject>)
      requires Valid()
      modifies pool, pool.free, pool.stores
      ensures Valid() && fresh(pool.free - old(pool.free)) && fresh(pool.stores - old(pool.stores))
      ensures match r
              case Ok(m) =>
                fresh(m) && m.header != null && fresh(m.header) && C.Decode(data) == Ok(m.Value()) && m.raw == data
              case Err(e) => C.Decode(data) == Err(e)
    {
      if |data| < 2 {
        return Err(InvalidMessage);
      }
      if data[0] != FLAG || data[|data| - 1] != FLAG {
        return Err(InvalidFlag);
      }
      var inner := data[1..|data| - 1];
      var plain := Unescape(inner);
      match plain
      case Err(e) => return Err(e);
      case Ok(unescaped) =>
        r := DecodePayload(unescaped[..], data);
    }

    static method DecodePayload(payload: seq<byte>, raw: seq<byte>) returns (r: Result<MessageObject>)
      ensures match r
              case Ok(m) =>
                fresh(m) && m.header != null && fresh(m.header)
                && C.DecodePayload(payload) == Ok(m.Value()) && m.raw == raw
              case Err(e) => C.DecodePayload(payload) == Err(e)
    {
      if |payload| < 13 {
        return Err(InvalidMessage);
      }
      var content := payload[..|payload| - 1];
      var expected := payload[|payload| - 1];
      var actual := CalculateChecksum([content, []]);
      JoinedTwo(content, []);
      assert content + [] == content;
      if expected != actual {
        return Err(InvalidChecksum);
      }
      var parsed := DecodeHeader(content);
      hide C.DecodeHeader;
      match parsed
      case Err(e) => return Err(e);
      case Ok((header, headerLen)) =>
        var bodyStart, bodyEnd := headerLen, |payload| - 1;
        if bodyStart > bodyEnd {
          return Err(InvalidMessage);
        }
        if bodyEnd - bodyStart != header.bodyLength {
          return Err(InvalidMessage);
        }
        var m := new MessageObject(header, payload[bodyStart..bodyEnd], raw);
        assert payload[bodyStart..bodyEnd] == content[headerLen..];
        return Ok(m);
    }
  }

  function Head(h: C.Header): seq<byte> {
    [Hi(h.msgId), Lo(h.msgId), Hi(h.property), Lo(h.property)] + if h.version > 0 then [h.version] else []
  }

  function Tail(h: C.Header): seq<byte> {
    [Hi(h.flowNo), Lo(h.flowNo)] + if h.subPackage then [0, 1, 0, 1] else []
  }

  function Framed(header: seq<byte>, body: seq<byte>): seq<byte> {
    [FLAG] + E.Escape(header) + E.Escape(body) + E.Escape([Checksum(header + body)]) + [FLAG]
  }

  lemma HeadAndTail(h: C.Header)
    ensures C.EncodeHeader(h) == [] + Head(h) + Pack(h.phone, C.PhoneLength(h.version)) + Tail(h)
  {
    hide Pack;
  }

  /** What is left to read once the identifier, the property word and the version are known. */
  function Rest(data: seq<byte>, h: C.Header, o: nat): Result<(C.Header, nat)>
    requires o <= |data|
  {
    var n := C.PhoneLength(h.version);
    if |data| < o + n + 2 then Err(InvalidMessage)
    else
      var header := h.(phone := Unpack(data[o..o + n]),
                       flowNo := Join(data[o + n], data[o + n + 1]),
                       bodyLength := LengthField(h.property),
                       encryption := EncryptionField(h.property),
                       subPackage := SubPackageBit(h.property));
      if !SubPackageBit(h.property) then Ok((header, o + n + 2))
      else if |data| < o + n + 6 then Err(InvalidMessage)
      else Ok((header, o + n + 6))
  }

  lemma DecodeSplits(data: seq<byte>)
    requires |data| >= 12
    ensures var property := Join(data[2], data[3]);
            var h := C.Header(Join(data[0], data[1]), property, if VersionBit(property) then data[4] else 0,
                              [], 0, 0, false, 0);
            C.DecodeHeader(data) == Rest(data, h, if VersionBit(property) then 5 else 4)
  {
    hide Unpack, LengthField, EncryptionField, SubPackageBit, VersionBit;
  }

  lemma OrNothing(q: nat)
    ensures Or(q, 0) == q
  {
  }

  lemma JoinedTwo(a: seq<byte>, b: seq<byte>)
    ensures Joined([a, b]) == a + b
  {
    assert [a, b][..|[a, b]| - 1] == [a] && [a][..|[a]| - 1] == [];
    assert Joined([a]) == [] + a == a;
  }

  lemma EscapeNext(data: seq<byte>, i: nat)
    requires i < |data|
    ensures E.Escape(data[..i + 1]) == E.Escape(data[..i]) + E.EscapeByte(data[i])
  {
    assert data[..i + 1] == data[..i] + [data[i]];
    E.EscapeConcat(data[..i], [data[i]]);
    assert E.Escape([data[i]]) == E.EscapeByte(data[i]) + E.Escape([]);
  }

  /** How the part already unescaped grows. */
  lemma UnescapeNext(data: seq<byte>, i: nat, read: seq<byte>)
    requires i < |data|
    ensures E.Prepend(read, E.Unescape(data[i..])) ==
            if data[i] != ESCAPE then E.Prepend(read + [data[i]], E.Unescape(data[i + 1..]))
            else if i + 1 < |data| && UnescapeMap(data[i + 1]).Some? then
              E.Prepend(read + [UnescapeMap(data[i + 1]).value], E.Unescape(data[i + 2..]))
            else Err(InvalidEscape)
  {
    assert data[i..][1..] == data[i + 1..];
    if data[i] != ESCAPE {
      PrependTwice(read, [data[i]], E.Unescape(data[i + 1..]));
    } else if i + 1 < |data| && UnescapeMap(data[i + 1]).Some? {
      assert data[i..][2..] == data[i + 2..];
      PrependTwice(read, [UnescapeMap(data[i + 1]).value], E.Unescape(data[i + 2..]));
    }
  }

  lemma PrependNothing(data: seq<byte>)
    ensures E.Unescape(data) == E.Prepend([], E.Unescape(data[0..]))
  {
    assert data[0..] == data;
    if E.Unescape(data).Ok? {
      assert [] + E.Unescape(data).value == E.Unescape(data).value;
    }
  }

  lemma PrependTwice(a: seq<byte>, b: seq<byte>, r: Result<seq<byte>>)
    ensures E.Prepend(a, E.Prepend(b, r)) == E.Prepend(a + b, r)
  {
    if r.Ok? {
      assert a + (b + r.value) == a + b + r.value;
    }
  }

  lemma PackNothing()
    ensures PackByte(0, 0) == 0
  {
  }

  lemma DigitsOf(b: byte)
    ensures And(Shr(b, 4), 0x0F) < 16 && And(b, 0x0F) < 16
    ensures var high, low := And(Shr(b, 4), 0x0F), And(b, 0x0F);
            UnpackByte(b) == (if high <= 9 then [ZERO + high] else []) + (if low <= 9 then [ZERO + low] else [])
  {
    hide And, Shr;
    NibblesAreMasks(b);
  }

  lemma UnpackNext(data: seq<byte>, i: nat)
    requires i < |data|
    ensures Unpack(data[..i + 1]) == Unpack(data[..i]) + UnpackByte(data[i])
  {
    assert data[..i + 1] == data[..i] + [data[i]];
    UnpackConcat(data[..i], [data[i]]);
    assert Unpack([data[i]]) == UnpackByte(data[i]) + Unpack([]);
  }

  function Joined(data: seq<seq<byte>>): seq<byte> {
    if data == [] then [] else Joined(data[..|data| - 1]) + data[|data| - 1]
  }

  lemma JoinedNext(data: seq<seq<byte>>, k: nat)
    requires k < |data|
    ensures Joined(data[..k + 1]) == Joined(data[..k]) + data[k] && data[k] == data[k][..|data[k]|]
  {
    assert data[..k + 1][..k] == data[..k];
  }

  lemma ChecksumNext(before: seq<byte>, d: seq<byte>, i: nat)
    requires i < |d|
    ensures Checksum(before + d[..i + 1]) == XorByte(Checksum(before + d[..i]), d[i])
  {
    assert before + d[..i + 1] == before + d[..i] + [d[i]];
    ChecksumConcat(before + d[..i], [d[i]]);
    assert Checksum([d[i]]) == d[i];
  }
}
