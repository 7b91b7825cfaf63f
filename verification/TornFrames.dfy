/** What a reader makes of a frame that breaks off and is followed by another one. */
module TornFrames {
  import opened Types
  import opened Wire
  import opened Escaping
  import opened Codec
  import opened CodecTheorems
  import opened Framing

  /** A stuffed string that breaks off unstuffs to a proper prefix, or not at all. */
  lemma {:induction false} UnescapeCut(p: seq<byte>, j: nat)
    requires j < |Escape(p)|
    ensures Unescape(Escape(p)[..j]).Ok? ==>
              var q := Unescape(Escape(p)[..j]).value;
              |q| < |p| && q == p[..|q|]
  {
    var e, t := EscapeByte(p[0]), Escape(p)[..j];
    if j < |e| {
      assert t == e[..j];
    } else {
      UnescapeCut(p[1..], j - |e|);
      var rest := Escape(p[1..])[..j - |e|];
      assert t == e + rest;
      UnescapeHead(p[0], rest);
      if Unescape(rest).Ok? {
        var q := Unescape(rest).value;
        assert [p[0]] + p[1..][..|q|] == p[..|q| + 1];
      }
    }
  }

  /** A payload that breaks off is refused: it no longer fills what its header declares. */
  lemma PayloadCut(p: seq<byte>, q: seq<byte>)
    requires DecodePayload(p).Ok? && |q| < |p| && q == p[..|q|]
    ensures DecodePayload(q).Err?
  {
    if DecodePayload(q).Ok? {
      Fills(p);
      Fills(q);
    }
  }

  lemma Fills(p: seq<byte>)
    requires DecodePayload(p).Ok?
    ensures |p| >= 13 && DeclaredHeader(p) + DeclaredBody(p) + 1 == |p|
  {
    var f := [FLAG] + Escape(p) + [FLAG];
    DecodeFrame(p);
    DecodeAccepts(f);
    UnescapeEscape(p);
    assert f[1..|f| - 1] == Escape(p);
  }

  /** The bytes of a frame broken off before its closing flag are not a frame. */
  lemma InnerCut(m: Message, j: nat)
    requires Encodable(m) && j < |Escape(Payload(m))|
    ensures Decode([FLAG] + Escape(Payload(m))[..j] + [FLAG]).Err?
  {
    var p := Payload(m);
    var inner := Escape(p)[..j];
    var f := [FLAG] + inner + [FLAG];
    assert f[1..|f| - 1] == inner;
    UnescapeCut(p, j);
    if Unescape(inner).Ok? {
      EncodeIsFrame(m);
      DecodeEncode(m);
      DecodeFrame(p);
      PayloadCut(p, Unescape(inner).value);
    }
  }

  /** A frame that breaks off anywhere before its closing flag, with another frame behind it,
      ends the reading with an error: neither it nor anything behind it is delivered. */
  lemma TornStops(m: Message, k: nat, rest: seq<byte>, maxPacketSize: int)
    requires Encodable(m) && (maxPacketSize <= 0 || maxPacketSize >= 2090)
    requires 0 < k < |Frame(m)| - 1
    ensures var s := Frame(m)[..k] + [FLAG] + rest;
            var d := ReadAll(s, maxPacketSize);
            d.messages == [] && d.error.Malformed? && d.rest == s
  {
    var inner := Escape(Payload(m));
    EncodeIsFrame(m);
    assert Frame(m)[..k] == [FLAG] + inner[..k - 1];
    InnerCut(m, k - 1);
    ReadInner(inner[..k - 1], rest, maxPacketSize);
    assert Frame(m)[..k] + [FLAG] + rest == [FLAG] + inner[..k - 1] + [FLAG] + rest;
  }
}
