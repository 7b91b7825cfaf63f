/** The protocol constants, the fields of the body-property word and the checksum
    (protocol/types/constants.go, protocol/codec.go). */
module Wire {
  import opened Bits
  import opened Types

  const FLAG: byte := 0x7E
  const ESCAPE: byte := 0x7D

  /** The two lookup tables of the byte stuffing: flag <-> 0x02, escape <-> 0x01. */
  function EscapeMap(b: byte): Option<byte> {
    if b == 0x7E then Some(0x02) else if b == 0x7D then Some(0x01) else None
  }

  function UnescapeMap(b: byte): Option<byte> {
    if b == 0x02 then Some(0x7E) else if b == 0x01 then Some(0x7D) else None
  }

  // Masks of the body-property word.
  const LENGTH_MASK: word := 0x03FF
  const ENCRYPTION_MASK: word := 0x1C00
  const SUBPACKAGE_FLAG: word := 0x2000
  const VERSION_FLAG: word := 0x4000
  const RESERVED_FLAG: word := 0x8000

  const PHONE_LENGTH_LEGACY: nat := 6
  const PHONE_LENGTH_2019: nat := 10
  const MAX_BODY: nat := 1023

  /** The fields of the body-property word in arithmetic form: bits 0-9 the body length,
      10-12 the encryption, 13 the sub-package flag, 14 the version flag, 15 reserved. */
  function LengthField(p: word): word { p % 1024 }
  function EncryptionField(p: word): byte { p / 1024 % 8 }
  predicate SubPackageBit(p: word) { p / 8192 % 2 == 1 }
  predicate VersionBit(p: word) { p / 16384 % 2 == 1 }
  predicate ReservedBit(p: word) { p / 32768 == 1 }

  function PropertyOf(length: word, subPackage: bool, encryption: byte, versioned: bool): word {
    length % 1024 + encryption % 8 * 1024
    + (if subPackage then 8192 else 0) + (if versioned then 16384 else 0)
  }

  /** The arithmetic forms are the program's mask expressions. */
  lemma FieldsAreMasks(p: word)
    ensures LengthField(p) == And(p, 0x03FF)
    ensures EncryptionField(p) == Shr(And(p, 0x1C00), 10)
    ensures SubPackageBit(p) <==> And(p, 0x2000) != 0
    ensures VersionBit(p) <==> And(p, 0x4000) != 0
    ensures ReservedBit(p) <==> And(p, 0x8000) != 0
  {
    hide And, Shr;
    LowMask10(p);
    EncryptionIsMask(p);
    FlagsAreMasks(p);
  }

  lemma EncryptionIsMask(p: word)
    ensures EncryptionField(p) == Shr(And(p, 0x1C00), 10)
  {
    hide Shr, And;
    Field(p, 3, 7, 0x1C00);
    Shift10(And(p, 0x1C00));
  }

  lemma FlagsAreMasks(p: word)
    ensures SubPackageBit(p) <==> And(p, 0x2000) != 0
    ensures VersionBit(p) <==> And(p, 0x4000) != 0
    ensures ReservedBit(p) <==> And(p, 0x8000) != 0
  {
    hide And;
    Bit13(p);
    Bit14(p);
    Bit15(p);
  }

  lemma PropertyIsMasks(length: word, subPackage: bool, encryption: byte, versioned: bool)
    ensures PropertyOf(length, subPackage, encryption, versioned)
         == Or(Or(Or(And(length, 0x03FF),
                     if subPackage then 0x2000 else 0),
                  Shl(And(encryption, 0x07), 10)),
               if versioned then 0x4000 else 0)
  {
    assert And(length, 0x03FF) == length % 1024 by { LowMask10(length); }
    assert And(encryption, 0x07) == encryption % 8 by { LowMask3(encryption); }
    PropertySum(length % 1024, if subPackage then 1 else 0, encryption % 8, if versioned then 1 else 0);
  }

  lemma PropertySum(n: nat, s: nat, e: nat, v: nat)
    requires n < 1024 && s <= 1 && e < 8 && v <= 1
    ensures Or(Or(Or(n, 8192 * s), Shl(e, 10)), 16384 * v) == n + 8192 * s + 1024 * e + 16384 * v
  {
    LowFields(n, s, e);
    TopBit(n + 8192 * s + 1024 * e, v);
  }

  lemma LowFields(n: nat, s: nat, e: nat)
    requires n < 1024 && s <= 1 && e < 8
    ensures Or(Or(n, 8192 * s), Shl(e, 10)) == n + 8192 * s + 1024 * e
  {
    hide Or, Shl;
    SubPackageField(n, s);
    calc {
      Or(n + 8192 * s, Shl(e, 10));
      { Shift10(8 * s); Shift10(1); OrHigh(n, 8 * s, e, 10); }
      n + Shl(Or(8 * s, e), 10);
      { Eighths(s, e); }
      n + Shl(8 * s + e, 10);
      { Shift10(8 * s + e); }
      n + 8192 * s + 1024 * e;
    }
  }

  lemma SubPackageField(n: nat, s: nat)
    requires n < 1024
    ensures Or(n, 8192 * s) == n + 8192 * s
  {
    assert n < Shl(1, 10) by { Shift10(1); }
    assert Shl(8 * s, 10) == 8192 * s by { Shift10(8 * s); }
    OrDisjoint(n, 8 * s, 10);
  }

  lemma Eighths(s: nat, e: nat)
    requires e < 8
    ensures Or(8 * s, e) == 8 * s + e
  {
    assert Shl(s, 3) == 8 * s by { Shift3(s); }
    assert e < Shl(1, 3) by { Shift3(1); }
    OrDisjoint(e, s, 3);
  }

  lemma TopBit(x: nat, v: nat)
    requires x < 16384
    ensures Or(x, 16384 * v) == x + 16384 * v
  {
    assert Shl(v, 14) == 16384 * v by { Shift14(v); }
    assert x < Shl(1, 14) by { Shift14(1); }
    OrDisjoint(x, v, 14);
  }

  lemma Shift14(a: nat)
    ensures Shl(a, 14) == 16384 * a
  {
    Compose(a, 10, 4);
    Shift4(a);
    Shift10(16 * a);
  }

  /** The two bytes of a big-endian 16-bit word, and the word they make. */
  function Hi(w: word): byte { w / 256 }
  function Lo(w: word): byte { w % 256 }
  function Join(hi: byte, lo: byte): word { 256 * hi + lo }

  lemma JoinSplit(w: word)
    ensures Join(Hi(w), Lo(w)) == w
  {
  }

  lemma SplitJoin(hi: byte, lo: byte)
    ensures Hi(Join(hi, lo)) == hi && Lo(Join(hi, lo)) == lo
  {
  }

  function XorByte(a: byte, b: byte): byte {
    Shift8(1);
    XorBound(a, b, 8);
    Xor(a, b)
  }

  /** XOR of all bytes (protocol/codec.go calculateChecksum). */
  function Checksum(s: seq<byte>): byte {
    if s == [] then 0 else XorByte(s[0], Checksum(s[1..]))
  }

  lemma {:induction false} ChecksumConcat(s: seq<byte>, t: seq<byte>)
    ensures Checksum(s + t) == XorByte(Checksum(s), Checksum(t))
  {
    if s == [] {
      assert s + t == t;
    } else {
      assert (s + t)[1..] == s[1..] + t;
      ChecksumConcat(s[1..], t);
      XorAssociative(s[0], Checksum(s[1..]), Checksum(t));
    }
  }

  /** A byte string XORs to zero exactly when its last byte is the checksum of the rest. */
  lemma ChecksumZero(s: seq<byte>, c: byte)
    ensures Checksum(s + [c]) == 0 <==> c == Checksum(s)
  {
    ChecksumConcat(s, [c]);
    assert Checksum([c]) == c;
    XorZero(Checksum(s), c);
  }

  /** Changing one byte of a string always changes its checksum. */
  lemma ChecksumDetects(s: seq<byte>, i: nat, b: byte)
    requires i < |s| && b != s[i]
    ensures Checksum(s[i := b]) != Checksum(s)
  {
    var p, q := s[..i], s[i + 1..];
    assert s == p + ([s[i]] + q) && s[i := b] == p + ([b] + q);
    ChecksumAround(p, s[i], q);
    ChecksumAround(p, b, q);
    XorDiffers(Checksum(p), Checksum(q), s[i], b);
  }

  lemma ChecksumAround(p: seq<byte>, b: byte, q: seq<byte>)
    ensures Checksum(p + ([b] + q)) == Xor(Checksum(p), Xor(b, Checksum(q)))
  {
    ChecksumConcat(p, [b] + q);
    assert ([b] + q)[1..] == q;
  }

  lemma XorDiffers(p: nat, q: nat, x: nat, y: nat)
    requires x != y
    ensures Xor(p, Xor(x, q)) != Xor(p, Xor(y, q))
  {
    XorCommutative(x, q);
    XorCommutative(y, q);
    if Xor(p, Xor(x, q)) == Xor(p, Xor(y, q)) {
      XorCancels(p, Xor(x, q), Xor(y, q));
      XorCancels(q, x, y);
    }
  }
}
