/** Cutting a byte stream into messages: readMessage of transport/tcp.go and of
    transport/tcp_highperf.go, and a reading loop over a whole stream. */
module Framing {
  import opened Types
  import opened Wire
  import opened Escaping
  import opened Codec
  import opened CodecTheorems

  datatype ReadError = EndOfStream | BadFlag | PacketTooLarge | Malformed(error: Error)

  /** One call of readMessage: a message and the bytes it consumed, or an error. */
  datatype ReadResult = Got(message: Message, consumed: nat) | Failed(error: ReadError)

  const DEFAULT_LIMIT: nat := 4096

  function Limit(maxPacketSize: int): nat {
    if maxPacketSize <= 0 then DEFAULT_LIMIT else maxPacketSize
  }

  /** The bytes up to the next flag. `count` bytes have been collected before `s`. */
  datatype Scan = Inner(length: nat) | Ended | TooLarge

  function ScanInner(s: seq<byte>, count: nat, limit: nat): (r: Scan)
    ensures r.Inner? ==> r.length < |s| && s[r.length] == FLAG
  {
    if s == [] then Ended
    else if s[0] == FLAG then Inner(0)
    else if count >= limit then TooLarge
    else match ScanInner(s[1..], count + 1, limit)
      case Inner(n) => Inner(n + 1)
      case other => other
  }

  function ReadMessage(s: seq<byte>, maxPacketSize: int): (r: ReadResult)
    ensures r.Got? ==> 2 <= r.consumed <= |s|
  {
    if s == [] then Failed(EndOfStream)
    else if s[0] != FLAG then Failed(BadFlag)
    else match ScanInner(s[1..], 0, Limit(maxPacketSize))
      case Ended => Failed(EndOfStream)
      case TooLarge => Failed(PacketTooLarge)
      case Inner(n) =>
        match Decode([FLAG] + s[1..n + 1] + [FLAG])
        case Ok(m) => Got(m, n + 2)
        case Err(e) => Failed(Malformed(e))
  }

  /** What a connection's read loop delivers: the messages in order, then the error that
      ended it and the bytes it had not consumed as whole messages. */
  datatype Delivery = Delivery(messages: seq<Message>, error: ReadError, rest: seq<byte>)

  function ReadAll(s: seq<byte>, maxPacketSize: int): Delivery
    decreases |s|
  {
    match ReadMessage(s, maxPacketSize)
    case Failed(e) => Delivery([], e, s)
    case Got(m, n) =>
      var d := ReadAll(s[n..], maxPacketSize);
      Delivery([m] + d.messages, d.error, d.rest)
  }

  // ---------------------------------------------------------------- scanning

  /** The scan stops at the first flag if it comes within the limit, and the size guard
      fires exactly when more than `limit` bytes come before it. */
  lemma {:induction false} ScanIs(inner: seq<byte>, rest: seq<byte>, count: nat, limit: nat)
    requires FLAG !in inner
    ensures count + |inner| <= limit ==> ScanInner(inner + [FLAG] + rest, count, limit) == Inner(|inner|)
    ensures count + |inner| > limit && count <= limit ==> ScanInner(inner + [FLAG] + rest, count, limit) == TooLarge
    ensures count + |inner| <= limit ==> ScanInner(inner, count, limit) == Ended
    ensures count + |inner| > limit && count <= limit ==> ScanInner(inner, count, limit) == TooLarge
  {
    var s := inner + [FLAG] + rest;
    if inner == [] {
      assert s[0] == FLAG;
    } else {
      assert s[0] == inner[0] && inner[0] in inner;
      assert s[1..] == inner[1..] + [FLAG] + rest;
      if count < limit {
        ScanIs(inner[1..], rest, count + 1, limit);
      }
    }
  }

  predicate Encodable(m: Message) { |m.body| <= 1023 }

  function Frame(m: Message): (f: seq<byte>)
    requires Encodable(m)
  {
    Encode(m).value
  }

  /** One encoded message at the front of a stream is read back as its normal form, and the
      size guard does not fire: no frame has more than 2090 stuffed bytes. */
  lemma ReadFrame(m: Message, rest: seq<byte>, maxPacketSize: int)
    requires Encodable(m) && (maxPacketSize <= 0 || maxPacketSize >= 2090)
    ensures |Frame(m)| >= 2
    ensures ReadMessage(Frame(m) + rest, maxPacketSize) == Got(Normalised(m), |Frame(m)|)
  {
    EncodeIsFrame(m);
    DecodeEncode(m);
    ReadInner(Escape(Payload(m)), rest, maxPacketSize);
  }

  /** A flag-free run of bytes between flags is handed to Decode if the size guard allows. */
  lemma ReadInner(inner: seq<byte>, rest: seq<byte>, maxPacketSize: int)
    requires FLAG !in inner && |inner| <= Limit(maxPacketSize)
    ensures var f := [FLAG] + inner + [FLAG];
            ReadMessage(f + rest, maxPacketSize)
              == match Decode(f)
                 case Ok(m) => Got(m, |f|)
                 case Err(e) => Failed(Malformed(e))
  {
    hide Decode, Limit;
    var s := [FLAG] + inner + [FLAG] + rest;
    assert s[1..] == inner + [FLAG] + rest;
    ScanIs(inner, rest, 0, Limit(maxPacketSize));
    assert s[1..|inner| + 1] == inner;
  }

  /** A proper prefix of a frame is not yet a message. */
  lemma ReadPartial(m: Message, k: nat, maxPacketSize: int)
    requires Encodable(m) && (maxPacketSize <= 0 || maxPacketSize >= 2090) && k < |Frame(m)|
    ensures ReadMessage(Frame(m)[..k], maxPacketSize) == Failed(EndOfStream)
  {
    EncodeIsFrame(m);
    ReadCut(Escape(Payload(m)), k, maxPacketSize);
  }

  lemma ReadCut(inner: seq<byte>, k: nat, maxPacketSize: int)
    requires FLAG !in inner && |inner| <= Limit(maxPacketSize) && k < |inner| + 2
    ensures ReadMessage(([FLAG] + inner + [FLAG])[..k], maxPacketSize) == Failed(EndOfStream)
  {
    hide Decode, Limit;
    if k > 0 {
      var s := ([FLAG] + inner + [FLAG])[..k];
      assert s[1..] == inner[..k - 1];
      ScanIs(inner[..k - 1], [], 0, Limit(maxPacketSize));
    }
  }

  // ---------------------------------------------------------------- whole streams

  predicate AllEncodable(ms: seq<Message>) { forall i :: 0 <= i < |ms| ==> Encodable(ms[i]) }

  function Stream(ms: seq<Message>): seq<byte>
    requires AllEncodable(ms)
  {
    if ms == [] then [] else Frame(ms[0]) + Stream(ms[1..])
  }

  function NormalForms(ms: seq<Message>): seq<Message>
    requires AllEncodable(ms)
  {
    if ms == [] then [] else [Normalised(ms[0])] + NormalForms(ms[1..])
  }

  /** A whole frame in front of a stream is delivered first. */
  lemma ReadAllFrame(m: Message, tail: seq<byte>, s: seq<byte>, maxPacketSize: int)
    requires Encodable(m) && (maxPacketSize <= 0 || maxPacketSize >= 2090)
    requires s == Frame(m) + tail
    ensures var d := ReadAll(tail, maxPacketSize);
            ReadAll(s, maxPacketSize) == Delivery([Normalised(m)] + d.messages, d.error, d.rest)
  {
    ReadFrame(m, tail, maxPacketSize);
    assert s[|Frame(m)|..] == tail;
  }

  /** Reading a concatenation of encoded messages followed by anything yields their normal
      forms in order and then whatever reading the remainder yields. */
  lemma {:induction false} ReadStream(ms: seq<Message>, rest: seq<byte>, maxPacketSize: int)
    requires AllEncodable(ms)
    requires maxPacketSize <= 0 || maxPacketSize >= 2090
    ensures var d := ReadAll(rest, maxPacketSize);
            ReadAll(Stream(ms) + rest, maxPacketSize)
              == Delivery(NormalForms(ms) + d.messages, d.error, d.rest)
  {
    hide ReadMessage, Frame, Normalised;
    if ms == [] {
      assert Stream(ms) + rest == rest;
      assert NormalForms(ms) + ReadAll(rest, maxPacketSize).messages == ReadAll(rest, maxPacketSize).messages;
    } else {
      var tail := Stream(ms[1..]) + rest;
      var s := Stream(ms) + rest;
      assert s == Frame(ms[0]) + tail;
      ReadAllFrame(ms[0], tail, s, maxPacketSize);
      ReadStream(ms[1..], rest, maxPacketSize);
      var d := ReadAll(rest, maxPacketSize);
      assert [Normalised(ms[0])] + (NormalForms(ms[1..]) + d.messages) == NormalForms(ms) + d.messages;
    }
  }

  /** The concatenation itself: every message, every byte consumed, end of stream. */
  lemma StreamRoundTrip(ms: seq<Message>, maxPacketSize: int)
    requires AllEncodable(ms)
    requires maxPacketSize <= 0 || maxPacketSize >= 2090
    ensures ReadAll(Stream(ms), maxPacketSize) == Delivery(NormalForms(ms), EndOfStream, [])
  {
    ReadStream(ms, [], maxPacketSize);
    assert Stream(ms) + [] == Stream(ms);
    assert NormalForms(ms) + [] == NormalForms(ms);
  }

  /** How many whole frames lie within the first k bytes. */
  function CompleteFrames(ms: seq<Message>, k: nat): (n: nat)
    requires AllEncodable(ms)
    ensures n <= |ms|
  {
    if ms == [] || |Frame(ms[0])| > k then 0
    else 1 + CompleteFrames(ms[1..], k - |Frame(ms[0])|)
  }

  lemma ReadNothing(maxPacketSize: int)
    ensures ReadAll([], maxPacketSize) == Delivery([], EndOfStream, [])
  {
  }

  /** Any truncation of the stream delivers exactly the messages whose frames are complete
      and then reports the end of the stream. */
  lemma {:induction false} TruncatedStream(ms: seq<Message>, k: nat, maxPacketSize: int)
    requires AllEncodable(ms)
    requires (maxPacketSize <= 0 || maxPacketSize >= 2090) && k <= |Stream(ms)|
    ensures var n := CompleteFrames(ms, k);
            && |Stream(ms[..n])| <= k
            && ReadAll(Stream(ms)[..k], maxPacketSize)
                 == Delivery(NormalForms(ms[..n]), EndOfStream, Stream(ms)[|Stream(ms[..n])|..k])
  {
    hide ReadAll, Frame, Encodable;
    if ms != [] {
      var f := Frame(ms[0]);
      if |f| > k {
        PartialStream(ms, k, maxPacketSize);
      } else {
        TruncatedStream(ms[1..], k - |f|, maxPacketSize);
        TruncatedStep(ms, CompleteFrames(ms[1..], k - |f|), k, maxPacketSize);
      }
    } else {
      assert Stream(ms)[..k] == [];
      ReadNothing(maxPacketSize);
    }
  }

  lemma PartialStream(ms: seq<Message>, k: nat, maxPacketSize: int)
    requires AllEncodable(ms) && ms != [] && k < |Frame(ms[0])|
    requires maxPacketSize <= 0 || maxPacketSize >= 2090
    ensures k <= |Stream(ms)| && Stream(ms[..0]) == [] && NormalForms(ms[..0]) == []
    ensures ReadAll(Stream(ms)[..k], maxPacketSize) == Delivery([], EndOfStream, Stream(ms)[0..k])
  {
    hide Frame;
    assert Stream(ms)[..k] == Frame(ms[0])[..k];
    ReadPartial(ms[0], k, maxPacketSize);
    hide ReadMessage;
    assert ms[..0] == [];
    assert Stream(ms)[0..k] == Stream(ms)[..k];
  }

  /** One more whole frame in front of a truncated stream. */
  lemma TruncatedStep(ms: seq<Message>, n: nat, k: nat, maxPacketSize: int)
    requires AllEncodable(ms) && ms != [] && n < |ms|
    requires (maxPacketSize <= 0 || maxPacketSize >= 2090) && |Frame(ms[0])| <= k <= |Stream(ms)|
    requires var j := k - |Frame(ms[0])|;
             && |Stream(ms[1..][..n])| <= j <= |Stream(ms[1..])|
             && ReadAll(Stream(ms[1..])[..j], maxPacketSize)
                  == Delivery(NormalForms(ms[1..][..n]), EndOfStream, Stream(ms[1..])[|Stream(ms[1..][..n])|..j])
    ensures |Stream(ms[..n + 1])| <= k
    ensures ReadAll(Stream(ms)[..k], maxPacketSize)
         == Delivery(NormalForms(ms[..n + 1]), EndOfStream, Stream(ms)[|Stream(ms[..n + 1])|..k])
  {
    hide ReadMessage, Frame, Normalised;
    var f, t := Frame(ms[0]), Stream(ms[1..]);
    var j := k - |f|;
    assert ms[..n + 1][1..] == ms[1..][..n];
    Split(f, t, k, |Stream(ms[1..][..n])|);
    ReadAllFrame(ms[0], t[..j], Stream(ms)[..k], maxPacketSize);
  }

  lemma Split(f: seq<byte>, t: seq<byte>, k: nat, i: nat)
    requires |f| <= k <= |f| + |t| && i <= k - |f|
    ensures (f + t)[..k] == f + t[..k - |f|]
    ensures (f + t)[|f| + i..k] == t[i..k - |f|]
  {
  }

  /** CompleteFrames is what it says: its frames fit in k bytes, and one more would not. */
  lemma {:induction false} CompleteFramesMaximal(ms: seq<Message>, k: nat, n: nat)
    requires AllEncodable(ms)
    requires n <= |ms|
    ensures |Stream(ms[..n])| <= k <==> n <= CompleteFrames(ms, k)
  {
    if n > 0 {
      var f := Frame(ms[0]);
      assert ms[..n][1..] == ms[1..][..n - 1];
      if |f| <= k {
        CompleteFramesMaximal(ms[1..], k - |f|, n - 1);
      }
    }
  }

  /** The size guard fires exactly when a flag-opened stream has more bytes before its next
      flag, or without a next flag, than the configured number, or 4096 where none is. */
  lemma SizeGuard(inner: seq<byte>, rest: seq<byte>, maxPacketSize: int)
    requires FLAG !in inner
    ensures ReadMessage([FLAG] + inner + [FLAG] + rest, maxPacketSize) == Failed(PacketTooLarge)
            <==> |inner| > if maxPacketSize <= 0 then 4096 else maxPacketSize
    ensures ReadMessage([FLAG] + inner, maxPacketSize) == Failed(PacketTooLarge)
            <==> |inner| > if maxPacketSize <= 0 then 4096 else maxPacketSize
  {
    ReadCases(inner, rest, maxPacketSize);
  }

  /** What one call of readMessage makes of every stream, in numbers: of the empty one, of one
      that opens with another byte than 0x7E, and of one that opens with 0x7E, by the bytes up
      to the next 0x7E or the end. */
  lemma ReadCases(inner: seq<byte>, rest: seq<byte>, maxPacketSize: int)
    requires 0x7E !in inner
    ensures ReadMessage([], maxPacketSize) == Failed(EndOfStream)
    ensures forall b: byte :: b != 0x7E ==> ReadMessage([b] + rest, maxPacketSize) == Failed(BadFlag)
    ensures ReadMessage([0x7E] + inner, maxPacketSize)
         == Failed(if |inner| > (if maxPacketSize <= 0 then 4096 else maxPacketSize)
                   then PacketTooLarge else EndOfStream)
    ensures ReadMessage([0x7E] + inner + [0x7E] + rest, maxPacketSize)
         == if |inner| > (if maxPacketSize <= 0 then 4096 else maxPacketSize) then Failed(PacketTooLarge)
            else match Decode([0x7E] + inner + [0x7E])
                 case Ok(m) => Got(m, |inner| + 2)
                 case Err(e) => Failed(Malformed(e))
  {
    hide Decode;
    var s := [FLAG] + inner + [FLAG] + rest;
    assert ([FLAG] + inner)[1..] == inner;
    assert s[1..] == inner + [FLAG] + rest;
    ScanIs(inner, rest, 0, Limit(maxPacketSize));
    if |inner| <= Limit(maxPacketSize) {
      ReadInner(inner, rest, maxPacketSize);
    }
  }
}
