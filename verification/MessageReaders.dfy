/** readMessage as the two servers run it: the plain one of transport/tcp.go, and the one of
    transport/tcp_highperf.go that collects bytes in a pooled slice. */
module MessageReaders {
  import opened Types
  import opened Wire
  import opened Buffers
  import opened CodecImpl
  import C = Codec
  import F = Framing

  /** The bytes a peer sends before the stream ends, and how many have been read. */
  class Reader {
    const input: seq<byte>
    var pos: nat

    constructor (input: seq<byte>)
      ensures Valid() && Unread() == input
    {
      this.input := input;
      pos := 0;
    }

    ghost predicate Valid()
      reads this
    {
      pos <= |input|
    }

    ghost function Unread(): seq<byte>
      requires Valid()
      reads this
    {
      input[pos..]
    }

    method ReadByte() returns (r: Option<byte>)
      requires Valid()
      modifies this
      ensures Valid()
      ensures r == if old(Unread()) == [] then None else Some(old(Unread())[0])
      ensures Unread() == if r.None? then [] else old(Unread())[1..]
    {
      if pos == |input| {
        return None;
      }
      r := Some(input[pos]);
      pos := pos + 1;
    }
  }

  datatype Outcome = Read(message: MessageObject) | Failure(error: F.ReadError)

  /** The outcome and the unread bytes are those of the specification. */
  ghost predicate Matches(before: seq<byte>, after: seq<byte>, spec: F.ReadResult, o: Outcome)
    reads if o.Read? then {o.message} else {}
    reads if o.Read? && o.message.header != null then {o.message.header} else {}
  {
    match spec
    case Got(m, n) =>
      n <= |before| && after == before[n..]
      && o.Read? && o.message.header != null && o.message.Value() == m
    case Failed(e) => o == Failure(e)
  }

  /** A scan that has collected n more bytes. */
  function Further(n: nat, scan: F.Scan): F.Scan {
    match scan
    case Inner(k) => F.Inner(n + k)
    case other => other
  }

  lemma ScanNext(s: seq<byte>, n: nat, limit: nat)
    requires n < |s|
    requires F.ScanInner(s, 0, limit) == Further(n, F.ScanInner(s[n..], n, limit))
    ensures s[n] == FLAG ==> F.ScanInner(s, 0, limit) == F.Inner(n)
    ensures s[n] != FLAG && n >= limit ==> F.ScanInner(s, 0, limit) == F.TooLarge
    ensures s[n] != FLAG && n < limit ==>
              F.ScanInner(s, 0, limit) == Further(n + 1, F.ScanInner(s[n + 1..], n + 1, limit))
  {
    assert s[n..][1..] == s[n + 1..];
  }

  lemma ScanStart(s: seq<byte>, limit: nat)
    ensures F.ScanInner(s, 0, limit) == Further(0, F.ScanInner(s[0..], 0, limit))
  {
    assert s[0..] == s;
  }

  lemma ScanEnd(s: seq<byte>, n: nat, limit: nat)
    requires n == |s|
    requires F.ScanInner(s, 0, limit) == Further(n, F.ScanInner(s[n..], n, limit))
    ensures F.ScanInner(s, 0, limit) == F.Ended
  {
  }

  lemma Slices(t: seq<byte>, n: nat)
    requires n < |t|
    ensures t[n..] != [] && t[n..][0] == t[n] && t[n..][1..] == t[n + 1..]
    ensures t[..n] + [t[n]] == t[..n + 1]
  {
  }

  /** How reading ends after the first flag: by how the scan of the bytes t ends. */
  ghost predicate Ends(t: seq<byte>, limit: nat, after: seq<byte>, o: Outcome)
    reads if o.Read? then {o.message} else {}
    reads if o.Read? && o.message.header != null then {o.message.header} else {}
  {
    match F.ScanInner(t, 0, limit)
    case Ended => o == Failure(F.EndOfStream)
    case TooLarge => o == Failure(F.PacketTooLarge)
    case Inner(n) => after == t[n + 1..] && Decoded(t[..n], o)
  }

  ghost predicate Decoded(data: seq<byte>, o: Outcome)
    reads if o.Read? then {o.message} else {}
    reads if o.Read? && o.message.header != null then {o.message.header} else {}
  {
    match C.Decode([FLAG] + data + [FLAG])
    case Ok(m) => o.Read? && o.message.header != null && o.message.Value() == m
    case Err(e) => o == Failure(F.Malformed(e))
  }

  lemma EndsMatches(s: seq<byte>, maxPacketSize: int, after: seq<byte>, o: Outcome)
    requires s != [] && s[0] == FLAG && Ends(s[1..], F.Limit(maxPacketSize), after, o)
    ensures Matches(s, after, F.ReadMessage(s, maxPacketSize), o)
  {
    hide C.Decode, F.Limit;
    match F.ScanInner(s[1..], 0, F.Limit(maxPacketSize))
    case Inner(n) =>
      assert s[1..][..n] == s[1..n + 1] && s[1..][n + 1..] == s[n + 2..];
    case _ =>
  }

  /** The collected bytes between two flags go to Decode. */
  method DecodeFrame(codec: Codec, data: seq<byte>) returns (o: Outcome)
    requires codec.Valid()
    modifies codec.pool, codec.pool.free, codec.pool.stores
    ensures codec.Valid()
    ensures fresh(codec.pool.free - old(codec.pool.free)) && fresh(codec.pool.stores - old(codec.pool.stores))
    ensures Decoded(data, o)
  {
    hide C.Decode;
    var fullData := [FLAG] + data + [FLAG];
    var decoded := codec.Decode(fullData);
    match decoded
    case Ok(m) => o := Read(m);
    case Err(e) => o := Failure(F.Malformed(e));
  }

  /** The loop of the plain version: bytes up to the next flag in a slice of its own. */
  method CollectPlain(reader: Reader, maxSize: nat) returns (data: seq<byte>, error: Option<F.ReadError>)
    requires reader.Valid()
    modifies reader
    ensures reader.Valid()
    ensures match F.ScanInner(old(reader.Unread()), 0, maxSize)
            case Inner(n) =>
              error == None && data == old(reader.Unread())[..n] && reader.Unread() == old(reader.Unread())[n + 1..]
            case Ended => error == Some(F.EndOfStream)
            case TooLarge => error == Some(F.PacketTooLarge)
  {
    data := [];
    ghost var t := reader.Unread();
    ScanStart(t, maxSize);
    hide F.ScanInner, Further;
    while true
      invariant reader.Valid()
      invariant |data| <= |t| && data == t[..|data|] && reader.Unread() == t[|data|..]
      invariant F.ScanInner(t, 0, maxSize) == Further(|data|, F.ScanInner(t[|data|..], |data|, maxSize))
      decreases |t| - |data|
    {
      var b := reader.ReadByte();
      if b.None? {
        assert |data| == |t|;
        ScanEnd(t, |data|, maxSize);
        return data, Some(F.EndOfStream);
      }
      Slices(t, |data|);
      ScanNext(t, |data|, maxSize);
      if b.value == FLAG {
        return data, None;
      }
      if |data| >= maxSize {
        return data, Some(F.PacketTooLarge);
      }
      data := data + [b.value];
    }
  }

  method ReadMessage(codec: Codec, reader: Reader, maxPacketSize: int) returns (o: Outcome)
    requires codec.Valid() && reader.Valid()
    modifies reader, codec.pool, codec.pool.free, codec.pool.stores
    ensures codec.Valid() && reader.Valid()
    ensures fresh(codec.pool.free - old(codec.pool.free)) && fresh(codec.pool.stores - old(codec.pool.stores))
    ensures Matches(old(reader.Unread()), reader.Unread(), F.ReadMessage(old(reader.Unread()), maxPacketSize), o)
  {
    ghost var s := reader.Unread();
    var flag := reader.ReadByte();
    if flag.None? {
      return Failure(F.EndOfStream);
    }
    if flag.value != FLAG {
      return Failure(F.BadFlag);
    }
    var maxSize := maxPacketSize;
    if maxSize <= 0 {
      maxSize := 4096;
    }
    hide F.ReadMessage, Matches, Ends;
    o := ReadPlain(codec, reader, maxSize);
    EndsMatches(s, maxPacketSize, reader.Unread(), o);
  }

  method ReadPlain(codec: Codec, reader: Reader, maxSize: nat) returns (o: Outcome)
    requires codec.Valid() && reader.Valid()
    modifies reader, codec.pool, codec.pool.free, codec.pool.stores
    ensures codec.Valid() && reader.Valid()
    ensures fresh(codec.pool.free - old(codec.pool.free)) && fresh(codec.pool.stores - old(codec.pool.stores))
    ensures Ends(old(reader.Unread()), maxSize, reader.Unread(), o)
  {
    hide F.ScanInner, Decoded;
    var data, error := CollectPlain(reader, maxSize);
    if error.Some? {
      return Failure(error.value);
    }
    o := DecodeFrame(codec, data);
  }

  /** Reading up to the next flag into a buffer. */
  method Collect(buf: Buffer, reader: Reader, maxSize: nat) returns (error: Option<F.ReadError>)
    requires buf.Valid() && buf.Contents() == [] && reader.Valid()
    modifies reader, buf, buf.store
    ensures reader.Valid() && buf.Valid() && (buf.store == old(buf.store) || fresh(buf.store))
    ensures match F.ScanInner(old(reader.Unread()), 0, maxSize)
            case Inner(n) =>
              && error == None
              && buf.Contents() == old(reader.Unread())[..n]
              && reader.Unread() == old(reader.Unread())[n + 1..]
            case Ended => error == Some(F.EndOfStream)
            case TooLarge => error == Some(F.PacketTooLarge)
  {
    ghost var t := reader.Unread();
    ScanStart(t, maxSize);
    assert buf.len == 0;
    hide F.ScanInner, Further, Buffer.Contents;
    while true
      invariant reader.Valid() && buf.Valid() && (buf.store == old(buf.store) || fresh(buf.store))
      invariant buf.len <= |t| && buf.Contents() == t[..buf.len] && reader.Unread() == t[buf.len..]
      invariant F.ScanInner(t, 0, maxSize) == Further(buf.len, F.ScanInner(t[buf.len..], buf.len, maxSize))
      decreases |t| - buf.len
    {
      ghost var n := buf.len;
      var b := reader.ReadByte();
      if b.None? {
        assert n == |t|;
        ScanEnd(t, n, maxSize);
        return Some(F.EndOfStream);
      }
      Slices(t, n);
      ScanNext(t, n, maxSize);
      if b.value == FLAG {
        return None;
      }
      if buf.len >= maxSize {
        return Some(F.PacketTooLarge);
      }
      buf.WriteByte(b.value);
    }
  }

  /** The pooled version between its Get and its deferred Put. */
  method CollectAndDecode(codec: Codec, buf: Buffer, reader: Reader, maxSize: nat) returns (o: Outcome)
    requires codec.Valid() && reader.Valid() && codec.pool.Lent(buf) && buf.Contents() == []
    modifies reader, codec.pool, codec.pool.free, codec.pool.stores, buf, buf.store
    ensures codec.Valid() && reader.Valid() && codec.pool.Lent(buf)
    ensures buf.store == old(buf.store) || fresh(buf.store)
    ensures fresh(codec.pool.free - old(codec.pool.free)) && fresh(codec.pool.stores - old(codec.pool.stores))
    ensures Ends(old(reader.Unread()), maxSize, reader.Unread(), o)
  {
    hide F.ScanInner, Decoded, Pool.Valid, Pool.Clean;
    var error := Collect(buf, reader, maxSize);
    if error.Some? {
      return Failure(error.value);
    }
    o := DecodeFrame(codec, buf.store[..buf.len]);
  }

  /** The pooled version. Its pool keeps slices as they were left, so each is cut to nothing
      when it is taken; what comes out is what the plain version returns on the same bytes. */
  method PooledReadMessage(codec: Codec, slices: Pool, reader: Reader, maxPacketSize: int) returns (o: Outcome)
    requires codec.Valid() && reader.Valid() && slices.Valid()
    requires Apart(codec.pool, slices)
    modifies reader, codec.pool, codec.pool.free, codec.pool.stores, slices, slices.free, slices.stores
    ensures codec.Valid() && reader.Valid() && slices.Valid()
    ensures Apart(codec.pool, slices)
    ensures fresh(codec.pool.free - old(codec.pool.free)) && fresh(codec.pool.stores - old(codec.pool.stores))
    ensures fresh(slices.free - old(slices.free)) && fresh(slices.stores - old(slices.stores))
    ensures Matches(old(reader.Unread()), reader.Unread(), F.ReadMessage(old(reader.Unread()), maxPacketSize), o)
  {
    ghost var s := reader.Unread();
    var flag := reader.ReadByte();
    if flag.None? {
      return Failure(F.EndOfStream);
    }
    if flag.value != FLAG {
      return Failure(F.BadFlag);
    }
    var maxSize := maxPacketSize;
    if maxSize <= 0 {
      maxSize := 4096;
    }
    hide F.ReadMessage, Matches, Ends, Apart, Pool.Valid, Pool.Clean;
    o := ReadPooled(codec, slices, reader, maxSize);
    EndsMatches(s, maxPacketSize, reader.Unread(), o);
  }

  method ReadPooled(codec: Codec, slices: Pool, reader: Reader, maxSize: nat) returns (o: Outcome)
    requires codec.Valid() && reader.Valid() && slices.Valid()
    requires Apart(codec.pool, slices)
    modifies reader, codec.pool, codec.pool.free, codec.pool.stores, slices, slices.free, slices.stores
    ensures codec.Valid() && reader.Valid() && slices.Valid()
    ensures Apart(codec.pool, slices)
    ensures fresh(codec.pool.free - old(codec.pool.free)) && fresh(codec.pool.stores - old(codec.pool.stores))
    ensures fresh(slices.free - old(slices.free)) && fresh(slices.stores - old(slices.stores))
    ensures Ends(old(reader.Unread()), maxSize, reader.Unread(), o)
  {
    hide Ends, Pool.Valid, Pool.Clean;
    var buf := slices.Get();
    buf.Reset();
    assert codec.pool.Lent(buf) && slices.Lent(buf);
    o := CollectAndDecode(codec, buf, reader, maxSize);
    assert slices.Lent(buf);
    slices.Put(buf);
  }

  /** Two pools that share no buffer and no array. */
  ghost predicate Apart(a: Pool, b: Pool)
    reads a, b
  {
    a != b && a.free !! b.free && a.stores !! b.stores
  }

  /** Message objects with the given values. */
  ghost predicate Holding(objects: seq<MessageObject>, values: seq<C.Message>)
    reads set i | 0 <= i < |objects| :: objects[i]
    reads set i | 0 <= i < |objects| && objects[i].header != null :: objects[i].header
  {
    |objects| == |values|
    && forall i :: 0 <= i < |objects| ==> objects[i].header != null && objects[i].Value() == values[i]
  }

  /** Of the stream s these values have been delivered and these bytes are unread. */
  predicate Progress(s: seq<byte>, maxPacketSize: int, values: seq<C.Message>, unread: seq<byte>) {
    F.ReadAll(s, maxPacketSize) ==
      var d := F.ReadAll(unread, maxPacketSize);
      d.(messages := values + d.messages)
  }

  lemma ReadAllNext(s: seq<byte>, maxPacketSize: int, values: seq<C.Message>, unread: seq<byte>)
    requires Progress(s, maxPacketSize, values, unread)
    ensures var r := F.ReadMessage(unread, maxPacketSize);
            if r.Got? then Progress(s, maxPacketSize, values + [r.message], unread[r.consumed..])
            else F.ReadAll(s, maxPacketSize) == F.Delivery(values, r.error, unread)
  {
    hide F.ReadMessage;
    var r := F.ReadMessage(unread, maxPacketSize);
    if r.Got? {
      var rest := F.ReadAll(unread[r.consumed..], maxPacketSize).messages;
      assert values + ([r.message] + rest) == values + [r.message] + rest;
    } else {
      assert values + [] == values;
    }
  }

  /** One more message, the earlier ones staying as they are, or the end. */
  method ReadNext(codec: Codec, reader: Reader, maxPacketSize: int, delivered: seq<MessageObject>,
                  ghost s: seq<byte>, ghost values: seq<C.Message>)
    returns (o: Outcome)
    requires codec.Valid() && reader.Valid() && Holding(delivered, values)
    requires Progress(s, maxPacketSize, values, reader.Unread())
    modifies reader, codec.pool, codec.pool.free, codec.pool.stores
    ensures codec.Valid() && reader.Valid()
    ensures fresh(codec.pool.free - old(codec.pool.free)) && fresh(codec.pool.stores - old(codec.pool.stores))
    ensures match o
            case Failure(e) =>
              && Holding(delivered, values)
              && F.ReadAll(s, maxPacketSize).messages == values
              && F.ReadAll(s, maxPacketSize).error == e
            case Read(m) =>
              |reader.Unread()| < |old(reader.Unread())|
              && m.header != null && Holding(delivered + [m], values + [m.Value()])
              && Progress(s, maxPacketSize, values + [m.Value()], reader.Unread())
  {
    hide F.ReadMessage, Progress, Pool.Valid, Pool.Clean, Reader.Unread;
    ReadAllNext(s, maxPacketSize, values, reader.Unread());
    o := ReadMessage(codec, reader, maxPacketSize);
    forall i | 0 <= i < |delivered|
      ensures delivered[i].header != null && delivered[i].Value() == values[i]
    {
      assert old(delivered[i].header) != null && old(delivered[i].Value()) == values[i];
    }
  }

  lemma Start(s: seq<byte>, maxPacketSize: int)
    ensures Holding([], []) && Progress(s, maxPacketSize, [], s)
  {
    assert [] + F.ReadAll(s, maxPacketSize).messages == F.ReadAll(s, maxPacketSize).messages;
  }

  /** The read loop of a connection, handing on every message until readMessage fails. */
  method ReadLoop(codec: Codec, reader: Reader, maxPacketSize: int)
    returns (delivered: seq<MessageObject>, error: F.ReadError)
    requires codec.Valid() && reader.Valid()
    modifies reader, codec.pool, codec.pool.free, codec.pool.stores
    ensures codec.Valid() && reader.Valid()
    ensures Holding(delivered, F.ReadAll(old(reader.Unread()), maxPacketSize).messages)
    ensures error == F.ReadAll(old(reader.Unread()), maxPacketSize).error
  {
    delivered := [];
    ghost var values: seq<C.Message> := [];
    ghost var s := reader.Unread();
    hide F.ReadAll, Progress, Pool.Valid, Pool.Clean, Holding;
    Start(s, maxPacketSize);
    while true
      invariant codec.Valid() && reader.Valid()
      invariant fresh(codec.pool.free - old(codec.pool.free)) && fresh(codec.pool.stores - old(codec.pool.stores))
      invariant Holding(delivered, values)
      invariant Progress(s, maxPacketSize, values, reader.Unread())
      decreases |reader.input| - reader.pos
    {
      var o := ReadNext(codec, reader, maxPacketSize, delivered, s, values);
      match o
      case Failure(e) =>
        return delivered, e;
      case Read(m) =>
        delivered := delivered + [m];
        values := values + [m.Value()];
    }
  }
}
