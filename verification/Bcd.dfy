/** Packed-decimal phone numbers: encodeBCD and decodeBCD of protocol/codec.go.
    A Go string is a byte string, so phone numbers are sequences of bytes. */
module Bcd {
  import opened Bits
  import opened Types
  import opened Wire

  const ZERO: byte := 0x30   // '0'

  predicate IsDigit(c: byte) { 0x30 <= c <= 0x39 }

  predicate AllDigits(s: seq<byte>) { forall i :: 0 <= i < |s| ==> IsDigit(s[i]) }

  /** The characters that fit a field of n digits are all digits. */
  predicate DigitsUpTo(s: seq<byte>, n: nat) { forall j :: 0 <= j < |s| && j < n ==> IsDigit(s[j]) }

  /** The value of the character at position j, in byte arithmetic; 0 past the end. */
  function DigitAt(s: seq<byte>, j: nat): byte {
    if j < |s| then (s[j] - ZERO) % 0x100 else 0
  }

  /** Two digits in one byte. Values of four bits, which all digits have, sit side by side;
      anything wider runs into its neighbour. */
  function PackByte(high: byte, low: byte): byte {
    if high < 16 && low < 16 then 16 * high + low
    else
      OrBytes(16 * high % 0x100, low);
      Or(16 * high % 0x100, low)
  }

  lemma OrBytes(a: byte, b: byte)
    ensures Or(a, b) < 0x100
  {
    Shift8(1);
    OrBound(a, b, 8);
  }

  /** PackByte is the program's (high << 4) | low in byte arithmetic. */
  lemma PackByteIsShift(high: byte, low: byte)
    ensures PackByte(high, low) == Or(Shl(high, 4) % 0x100, low)
  {
    hide Or, Shl;
    Shift4(high);
    if high < 16 && low < 16 {
      Nibbles(high, low);
    }
  }

  function Pack(s: seq<byte>, length: nat): seq<byte> {
    seq(length, i requires 0 <= i < length => PackByte(DigitAt(s, 2 * i), DigitAt(s, 2 * i + 1)))
  }

  function HighNibble(b: byte): byte { b / 16 }
  function LowNibble(b: byte): byte { b % 16 }

  lemma NibblesAreMasks(b: byte)
    ensures HighNibble(b) == And(Shr(b, 4), 0x0F) && LowNibble(b) == And(b, 0x0F)
  {
    hide And, Shr;
    Shift4(b);
    LowMask4(b / 16);
    LowMask4(b);
  }

  function UnpackNibble(n: byte): seq<byte> {
    if n <= 9 then [ZERO + n] else []
  }

  function UnpackByte(b: byte): seq<byte> {
    UnpackNibble(HighNibble(b)) + UnpackNibble(LowNibble(b))
  }

  function Unpack(d: seq<byte>): seq<byte> {
    if d == [] then [] else UnpackByte(d[0]) + Unpack(d[1..])
  }

  predicate DecimalByte(b: byte) { HighNibble(b) <= 9 && LowNibble(b) <= 9 }

  predicate Decimal(d: seq<byte>) { forall i :: 0 <= i < |d| ==> DecimalByte(d[i]) }

  /** Cut to n characters, or padded with '0' on the right. */
  function Fit(s: seq<byte>, n: nat): seq<byte> {
    seq(n, i requires 0 <= i < n => if i < |s| then s[i] else ZERO)
  }

  lemma {:induction false} UnpackConcat(d: seq<byte>, e: seq<byte>)
    ensures Unpack(d + e) == Unpack(d) + Unpack(e)
  {
    hide UnpackByte;
    if d == [] {
      assert d + e == e;
    } else {
      assert (d + e)[1..] == d[1..] + e;
      UnpackConcat(d[1..], e);
      assert UnpackByte(d[0]) + (Unpack(d[1..]) + Unpack(e)) == Unpack(d) + Unpack(e);
    }
  }

  lemma {:induction false} UnpackDigits(d: seq<byte>)
    ensures AllDigits(Unpack(d)) && |Unpack(d)| <= 2 * |d|
  {
    if d != [] {
      UnpackDigits(d[1..]);
    }
  }

  /** Of decimal bytes, Unpack returns the nibbles two by two. */
  lemma {:induction false} UnpackAt(d: seq<byte>, i: nat)
    requires Decimal(d) && i <= |d|
    ensures |Unpack(d)| == 2 * |d|
    ensures i < |d| ==> Unpack(d)[2 * i] == ZERO + d[i] / 16 && Unpack(d)[2 * i + 1] == ZERO + d[i] % 16
  {
    if d != [] {
      UnpackAt(d[1..], if i > 0 then i - 1 else 0);
      assert DecimalByte(d[0]);
      assert |UnpackByte(d[0])| == 2;
    }
  }

  lemma PackAt(s: seq<byte>, length: nat, i: nat)
    requires DigitsUpTo(s, 2 * length) && i < length
    ensures var b := Pack(s, length)[i];
            && DecimalByte(b)
            && ZERO + b / 16 == Fit(s, 2 * length)[2 * i]
            && ZERO + b % 16 == Fit(s, 2 * length)[2 * i + 1]
  {
    var h, l := DigitAt(s, 2 * i), DigitAt(s, 2 * i + 1);
    assert h <= 9 && ZERO + h == Fit(s, 2 * length)[2 * i];
    assert l <= 9 && ZERO + l == Fit(s, 2 * length)[2 * i + 1];
    assert Pack(s, length)[i] == PackByte(h, l);
  }

  lemma PackDecimal(s: seq<byte>, length: nat)
    requires DigitsUpTo(s, 2 * length)
    ensures Decimal(Pack(s, length))
    ensures Unpack(Pack(s, length)) == Fit(s, 2 * length)
  {
    var d := Pack(s, length);
    forall i | 0 <= i < |d|
      ensures DecimalByte(d[i])
    {
      PackAt(s, length, i);
    }
    UnpackAt(d, |d|);
    forall k | 0 <= k < 2 * length
      ensures Unpack(d)[k] == Fit(s, 2 * length)[k]
    {
      var i := k / 2;
      UnpackAt(d, i);
      PackAt(s, length, i);
      assert k == 2 * i || k == 2 * i + 1;
    }
  }

  /** A phone comes back cut or padded to the field exactly when the characters that fit
      the field are decimal digits. */
  lemma PhoneRoundTrip(s: seq<byte>, length: nat)
    ensures Unpack(Pack(s, length)) == Fit(s, 2 * length) <==> DigitsUpTo(s, 2 * length)
  {
    if DigitsUpTo(s, 2 * length) {
      PackDecimal(s, length);
    } else {
      var j :| 0 <= j < |s| && j < 2 * length && !IsDigit(s[j]);
      UnpackDigits(Pack(s, length));
      assert !IsDigit(Fit(s, 2 * length)[j]);
    }
  }

  lemma SameNibbles(b: byte, c: byte)
    requires b / 16 == c / 16 && b % 16 == c % 16
    ensures b == c
  {
  }

  lemma FitExact(s: seq<byte>)
    ensures Fit(s, |s|) == s
  {
  }

  lemma RepackAt(d: seq<byte>, s: seq<byte>, i: nat)
    requires Decimal(d) && s == Unpack(d) && AllDigits(s) && i < |d|
    ensures Pack(s, |d|)[i] == d[i]
  {
    UnpackAt(d, i);
    FitExact(s);
    var b := Pack(s, |d|)[i];
    assert b / 16 == d[i] / 16 && b % 16 == d[i] % 16 by { PackAt(s, |d|, i); }
    SameNibbles(b, d[i]);
  }

  /** Re-packing an unpacked field restores it exactly when every nibble is decimal. */
  lemma PackRoundTrip(d: seq<byte>)
    ensures Pack(Unpack(d), |d|) == d <==> Decimal(d)
  {
    UnpackDigits(d);
    PackDecimal(Unpack(d), |d|);
    if Decimal(d) {
      forall i | 0 <= i < |d|
        ensures Pack(Unpack(d), |d|)[i] == d[i]
      {
        RepackAt(d, Unpack(d), i);
      }
    }
  }
}
