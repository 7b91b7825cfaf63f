/** Byte stuffing: escape and unescape of protocol/codec.go, and the proof that they are
    mutually inverse bijections between all byte strings and the flag-free strings that
    unescape accepts. */
module Escaping {
  import opened Types
  import opened Wire

  function EscapeByte(b: byte): seq<byte> {
    match EscapeMap(b)
    case Some(code) => [ESCAPE, code]
    case None => [b]
  }

  function Escape(s: seq<byte>): seq<byte> {
    if s == [] then [] else EscapeByte(s[0]) + Escape(s[1..])
  }

  function Prepend(p: seq<byte>, r: Result<seq<byte>>): Result<seq<byte>> {
    match r
    case Ok(s) => Ok(p + s)
    case Err(e) => Err(e)
  }

  function Unescape(s: seq<byte>): Result<seq<byte>> {
    if s == [] then Ok([])
    else if s[0] == ESCAPE then
      if |s| < 2 then Err(InvalidEscape)
      else if UnescapeMap(s[1]).Some? then Prepend([UnescapeMap(s[1]).value], Unescape(s[2..]))
      else Err(InvalidEscape)
    else Prepend([s[0]], Unescape(s[1..]))
  }

  lemma {:induction false} EscapeConcat(s: seq<byte>, t: seq<byte>)
    ensures Escape(s + t) == Escape(s) + Escape(t)
  {
    if s == [] {
      assert s + t == t;
    } else {
      assert (s + t)[1..] == s[1..] + t;
      EscapeConcat(s[1..], t);
    }
  }

  /** Escaping never shrinks, at most doubles, and its output holds no flag byte. */
  lemma {:induction false} EscapeShape(s: seq<byte>)
    ensures |s| <= |Escape(s)| <= 2 * |s|
    ensures FLAG !in Escape(s)
  {
    if s != [] {
      EscapeShape(s[1..]);
    }
  }

  lemma UnescapeHead(b: byte, t: seq<byte>)
    ensures Unescape(EscapeByte(b) + t) == Prepend([b], Unescape(t))
  {
    var e := EscapeByte(b);
    assert (e + t)[|e|..] == t;
  }

  lemma EscapeHead(s: seq<byte>)
    ensures if s == [] then Unescape(Escape(s)) == Ok(s) else Escape(s) == EscapeByte(s[0]) + Escape(s[1..])
  {
  }

  lemma {:induction false} UnescapeEscape(s: seq<byte>)
    ensures Unescape(Escape(s)) == Ok(s)
  {
    hide Escape, Unescape, EscapeByte;
    EscapeHead(s);
    if s != [] {
      UnescapeEscape(s[1..]);
      UnescapeHead(s[0], Escape(s[1..]));
      assert s == [s[0]] + s[1..];
    }
  }

  lemma {:induction false} EscapeUnescape(t: seq<byte>)
    requires Unescape(t).Ok? && FLAG !in t
    ensures Escape(Unescape(t).value) == t
  {
    if t == [] {
    } else if t[0] == ESCAPE {
      var rest := Unescape(t[2..]).value;
      var s := [UnescapeMap(t[1]).value] + rest;
      assert Unescape(t).value == s;
      EscapeUnescape(t[2..]);
      assert s[1..] == rest;
      assert t == [ESCAPE, t[1]] + t[2..];
    } else {
      var rest := Unescape(t[1..]).value;
      var s := [t[0]] + rest;
      assert Unescape(t).value == s;
      EscapeUnescape(t[1..]);
      assert s[1..] == rest;
      assert t == [t[0]] + t[1..];
    }
  }

  /** The image of Escape is exactly the flag-free strings that Unescape accepts, and
      there each string has the single preimage that Unescape returns. */
  lemma EscapeBijection(s: seq<byte>, t: seq<byte>)
    ensures Escape(s) == t <==> FLAG !in t && Unescape(t) == Ok(s)
  {
    EscapeShape(s);
    UnescapeEscape(s);
    if FLAG !in t && Unescape(t) == Ok(s) {
      EscapeUnescape(t);
    }
  }

  /** Unescape only ever fails with the escape error. */
  lemma {:induction false} UnescapeError(t: seq<byte>)
    ensures Unescape(t).Err? ==> Unescape(t).error == InvalidEscape
  {
    if t == [] {
    } else if t[0] == ESCAPE {
      if |t| >= 2 && UnescapeMap(t[1]).Some? {
        UnescapeError(t[2..]);
      }
    } else {
      UnescapeError(t[1..]);
    }
  }

  /** The stuffing of each byte: 0x7E becomes 0x7D 0x02, 0x7D becomes 0x7D 0x01, and every
      other byte is itself. */
  lemma StuffingOfBytes(b: byte)
    ensures Escape([0x7E]) == [0x7D, 0x02] && Escape([0x7D]) == [0x7D, 0x01]
    ensures b != 0x7E && b != 0x7D ==> Escape([b]) == [b]
  {
    assert Escape([0x7E]) == EscapeByte(0x7E) + Escape([]);
    assert Escape([0x7D]) == EscapeByte(0x7D) + Escape([]);
    assert Escape([b]) == EscapeByte(b) + Escape([]);
  }

  /** What any stuffed string stands for, from its front: 0x7D 0x02 is 0x7E, 0x7D 0x01 is 0x7D,
      0x7D before anything else or at the end is refused, and every other byte is itself. */
  lemma UnstuffingFromFront(b: byte, t: seq<byte>)
    ensures Unescape([]) == Ok([]) && Unescape([0x7D]) == Err(InvalidEscape)
    ensures Unescape([0x7D, 0x02] + t) == Prepend([0x7E], Unescape(t))
    ensures Unescape([0x7D, 0x01] + t) == Prepend([0x7D], Unescape(t))
    ensures b != 0x01 && b != 0x02 ==> Unescape([0x7D, b] + t) == Err(InvalidEscape)
    ensures b != 0x7D ==> Unescape([b] + t) == Prepend([b], Unescape(t))
  {
    assert ([0x7D, 0x02] + t)[2..] == t && ([0x7D, 0x01] + t)[2..] == t && ([b] + t)[1..] == t;
  }
}
