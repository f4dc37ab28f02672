// Fixed-width integer codec (src/conversion.cpp, integer half). The source copies
// the value's storage with `memcpy`, so the byte order is the host's; this model
// fixes it as little-endian, the same order in both directions.
module Conversion {
  import opened Ints

  /** 256^n: the number of values n bytes can hold. */
  function Radix(n: nat): (r: nat)
    ensures r >= 1
  {
    if n == 0 then 1 else 256 * Radix(n - 1)
  }

  lemma RadixValues()
    ensures Radix(1) == TWO8 && Radix(2) == TWO16 && Radix(4) == TWO32 && Radix(8) == TWO64
  {
    assert Radix(2) == TWO16;
    assert Radix(4) == TWO32;
    assert Radix(6) == 0x1_0000_0000_0000;
  }

  /** The n low-order bytes of `u`, least significant first. */
  function LittleEndian(u: nat, n: nat): (bs: seq<Byte>)
    ensures |bs| == n
  {
    if n == 0 then [] else [u % 256] + LittleEndian(u / 256, n - 1)
  }

  /** The unsigned value of a little-endian byte string. */
  function FromLittleEndian(bs: seq<Byte>): (u: nat)
    ensures u < Radix(|bs|)
  {
    if bs == [] then 0 else bs[0] + 256 * FromLittleEndian(bs[1..])
  }

  lemma {:induction false} DecodeEncode(u: nat, n: nat)
    requires u < Radix(n)
    ensures FromLittleEndian(LittleEndian(u, n)) == u
  {
    if n > 0 {
      DecodeEncode(u / 256, n - 1);
      assert LittleEndian(u, n)[1..] == LittleEndian(u / 256, n - 1);
    }
  }

  lemma {:induction false} EncodeDecode(bs: seq<Byte>)
    ensures LittleEndian(FromLittleEndian(bs), |bs|) == bs
  {
    if bs != [] {
      EncodeDecode(bs[1..]);
      var u := FromLittleEndian(bs);
      assert u % 256 == bs[0] && u / 256 == FromLittleEndian(bs[1..]);
    }
  }

  // ---------------------------------------------------------------- the byte images

  function Int16Bytes(v: Int16): (bs: seq<Byte>)
    ensures |bs| == 2
  {
    LittleEndian(if v < 0 then v + TWO16 else v, 2)
  }

  function Int32Bytes(v: Int32): (bs: seq<Byte>)
    ensures |bs| == 4
  {
    LittleEndian(if v < 0 then v + TWO32 else v, 4)
  }

  function Int64Bytes(v: Int64): (bs: seq<Byte>)
    ensures |bs| == 8
  {
    LittleEndian(if v < 0 then v + TWO64 else v, 8)
  }

  function UInt16Bytes(v: UInt16): (bs: seq<Byte>)
    ensures |bs| == 2
  {
    LittleEndian(v, 2)
  }

  function UInt32Bytes(v: UInt32): (bs: seq<Byte>)
    ensures |bs| == 4
  {
    LittleEndian(v, 4)
  }

  function UInt64Bytes(v: UInt64): (bs: seq<Byte>)
    ensures |bs| == 8
  {
    LittleEndian(v, 8)
  }

  // ---------------------------------------------------------------- Convert::parse*

  /** parseInt16: the first 2 bytes of the buffer as a two's-complement value. */
  function ParseInt16(buffer: seq<Byte>): (v: Int16)
    requires |buffer| >= 2
  {
    RadixValues();
    var u := FromLittleEndian(buffer[..2]);
    if u < TWO15 then u else u - TWO16
  }

  function ParseInt32(buffer: seq<Byte>): (v: Int32)
    requires |buffer| >= 4
  {
    RadixValues();
    var u := FromLittleEndian(buffer[..4]);
    if u < TWO31 then u else u - TWO32
  }

  function ParseInt64(buffer: seq<Byte>): (v: Int64)
    requires |buffer| >= 8
  {
    RadixValues();
    var u := FromLittleEndian(buffer[..8]);
    if u < TWO63 then u else u - TWO64
  }

  function ParseUInt16(buffer: seq<Byte>): (v: UInt16)
    requires |buffer| >= 2
  {
    RadixValues();
    FromLittleEndian(buffer[..2])
  }

  function ParseUInt32(buffer: seq<Byte>): (v: UInt32)
    requires |buffer| >= 4
  {
    RadixValues();
    FromLittleEndian(buffer[..4])
  }

  function ParseUInt64(buffer: seq<Byte>): (v: UInt64)
    requires |buffer| >= 8
  {
    RadixValues();
    FromLittleEndian(buffer[..8])
  }

  /** Moving the factor 256 across a sum: the arithmetic step of LastByteMostSignificant. */
  lemma ShiftSum(first: int, low: int, top: int, last: int)
    ensures first + 256 * (low + top * last) == (first + 256 * low) + (256 * top) * last
  {
  }

  /** The last byte of a little-endian string is its most significant: it counts 256^(n-1) times. */
  lemma {:induction false} LastByteMostSignificant(bs: seq<Byte>)
    requires |bs| >= 1
    ensures FromLittleEndian(bs) == FromLittleEndian(bs[..|bs| - 1]) + Radix(|bs| - 1) * bs[|bs| - 1]
  {
    if |bs| > 1 {
      var rest, init, last := bs[1..], bs[..|bs| - 1], bs[|bs| - 1];
      LastByteMostSignificant(rest);
      assert init[1..] == rest[..|rest| - 1];
      var top := Radix(|rest| - 1);
      assert Radix(|bs| - 1) == 256 * top;
      ShiftSum(bs[0], FromLittleEndian(init[1..]), top, last);
    }
  }

  /** parseInt16 and parseUInt16 read the first byte as the low-order one and the second as the
      high-order one; the signed value is negative exactly when the high byte's top bit is set, and it
      agrees with the unsigned one modulo 2^16. */
  lemma ParseBytes16(buffer: seq<Byte>)
    requires |buffer| >= 2
    ensures ParseUInt16(buffer) % TWO8 == buffer[0] && ParseUInt16(buffer) / TWO8 == buffer[1]
    ensures ParseInt16(buffer) < 0 <==> buffer[1] >= 0x80
    ensures ParseInt16(buffer) % TWO16 == ParseUInt16(buffer)
  {
    RadixValues();
    LastByteMostSignificant(buffer[..2]);
    assert buffer[..2][..1] == buffer[..1];
    LastByteMostSignificant(buffer[..1]);
  }

  /** The same for the 4-byte parses: low-order byte first, sign in the top bit of the last byte. */
  lemma ParseBytes32(buffer: seq<Byte>)
    requires |buffer| >= 4
    ensures ParseUInt32(buffer) % TWO8 == buffer[0] && ParseUInt32(buffer) / 0x100_0000 == buffer[3]
    ensures ParseInt32(buffer) < 0 <==> buffer[3] >= 0x80
    ensures ParseInt32(buffer) % TWO32 == ParseUInt32(buffer)
  {
    RadixValues();
    assert Radix(3) == 0x100_0000;
    LastByteMostSignificant(buffer[..4]);
    assert buffer[..4][..3] == buffer[..3];
    assert buffer[..4][1..] == buffer[1..4];
  }

  /** The same for the 8-byte parses. */
  lemma ParseBytes64(buffer: seq<Byte>)
    requires |buffer| >= 8
    ensures ParseUInt64(buffer) % TWO8 == buffer[0] && ParseUInt64(buffer) / 0x100_0000_0000_0000 == buffer[7]
    ensures ParseInt64(buffer) < 0 <==> buffer[7] >= 0x80
    ensures ParseInt64(buffer) % TWO64 == ParseUInt64(buffer)
  {
    RadixValues();
    assert Radix(7) == 0x100_0000_0000_0000;
    LastByteMostSignificant(buffer[..8]);
    assert buffer[..8][..7] == buffer[..7];
    assert buffer[..8][1..] == buffer[1..8];
  }

  // ---------------------------------------------------------------- round trips

  /** Each parse reads back what the serializer of its type wrote, whatever follows it. */
  lemma ParseSerialized16(v: Int16, w: UInt16, rest: seq<Byte>)
    ensures ParseInt16(Int16Bytes(v) + rest) == v
    ensures ParseUInt16(UInt16Bytes(w) + rest) == w
  {
    RadixValues();
    assert (Int16Bytes(v) + rest)[..2] == Int16Bytes(v);
    assert (UInt16Bytes(w) + rest)[..2] == UInt16Bytes(w);
    DecodeEncode(if v < 0 then v + TWO16 else v, 2);
    DecodeEncode(w, 2);
  }

  lemma ParseSerialized32(v: Int32, w: UInt32, rest: seq<Byte>)
    ensures ParseInt32(Int32Bytes(v) + rest) == v
    ensures ParseUInt32(UInt32Bytes(w) + rest) == w
  {
    RadixValues();
    assert (Int32Bytes(v) + rest)[..4] == Int32Bytes(v);
    assert (UInt32Bytes(w) + rest)[..4] == UInt32Bytes(w);
    DecodeEncode(if v < 0 then v + TWO32 else v, 4);
    DecodeEncode(w, 4);
  }

  lemma ParseSerialized64(v: Int64, w: UInt64, rest: seq<Byte>)
    ensures ParseInt64(Int64Bytes(v) + rest) == v
    ensures ParseUInt64(UInt64Bytes(w) + rest) == w
  {
    RadixValues();
    assert (Int64Bytes(v) + rest)[..8] == Int64Bytes(v);
    assert (UInt64Bytes(w) + rest)[..8] == UInt64Bytes(w);
    DecodeEncode(if v < 0 then v + TWO64 else v, 8);
    DecodeEncode(w, 8);
  }

  /** Serializing a parsed value gives back the bytes parsed: no two byte images share a value. */
  lemma SerializeParsed(buffer: seq<Byte>)
    requires |buffer| >= 8
    ensures Int16Bytes(ParseInt16(buffer)) == buffer[..2] && UInt16Bytes(ParseUInt16(buffer)) == buffer[..2]
    ensures Int32Bytes(ParseInt32(buffer)) == buffer[..4] && UInt32Bytes(ParseUInt32(buffer)) == buffer[..4]
    ensures Int64Bytes(ParseInt64(buffer)) == buffer[..8] && UInt64Bytes(ParseUInt64(buffer)) == buffer[..8]
  {
    RadixValues();
    EncodeDecode(buffer[..2]);
    EncodeDecode(buffer[..4]);
    EncodeDecode(buffer[..8]);
  }

  /** A port written as int16 and read as uint16 comes back modulo 2^16. */
  lemma Int16ReadUnsigned(v: Int16, rest: seq<Byte>)
    ensures ParseUInt16(Int16Bytes(v) + rest) == v % TWO16
  {
    RadixValues();
    assert (Int16Bytes(v) + rest)[..2] == Int16Bytes(v);
    DecodeEncode(if v < 0 then v + TWO16 else v, 2);
  }

  /** Signed and unsigned serializers of one width agree on the values both can hold. */
  lemma SignedUnsignedSameBytes(v: int)
    requires 0 <= v
    ensures v < TWO15 ==> Int16Bytes(v) == UInt16Bytes(v)
    ensures v < TWO31 ==> Int32Bytes(v) == UInt32Bytes(v)
    ensures v < TWO63 ==> Int64Bytes(v) == UInt64Bytes(v)
  {
  }

  // ---------------------------------------------------------------- BitConverter::serialize*

  /** serializeInt16: copies the value's 2 bytes to the front of the caller's buffer. */
  method SerializeInt16(value: Int16, buffer: array<Byte>)
    requires buffer.Length >= 2
    modifies buffer
    ensures buffer[..] == Int16Bytes(value) + old(buffer[2..])
  {
    CopyInto(Int16Bytes(value), buffer);
  }

  method SerializeInt32(value: Int32, buffer: array<Byte>)
    requires buffer.Length >= 4
    modifies buffer
    ensures buffer[..] == Int32Bytes(value) + old(buffer[4..])
  {
    CopyInto(Int32Bytes(value), buffer);
  }

  method SerializeInt64(value: Int64, buffer: array<Byte>)
    requires buffer.Length >= 8
    modifies buffer
    ensures buffer[..] == Int64Bytes(value) + old(buffer[8..])
  {
    CopyInto(Int64Bytes(value), buffer);
  }

  method SerializeUInt16(value: UInt16, buffer: array<Byte>)
    requires buffer.Length >= 2
    modifies buffer
    ensures buffer[..] == UInt16Bytes(value) + old(buffer[2..])
  {
    CopyInto(UInt16Bytes(value), buffer);
  }

  method SerializeUInt32(value: UInt32, buffer: array<Byte>)
    requires buffer.Length >= 4
    modifies buffer
    ensures buffer[..] == UInt32Bytes(value) + old(buffer[4..])
  {
    CopyInto(UInt32Bytes(value), buffer);
  }

  method SerializeUInt64(value: UInt64, buffer: array<Byte>)
    requires buffer.Length >= 8
    modifies buffer
    ensures buffer[..] == UInt64Bytes(value) + old(buffer[8..])
  {
    CopyInto(UInt64Bytes(value), buffer);
  }

  /** memcpy(buffer, src, |src|). */
  method CopyInto(src: seq<Byte>, buffer: array<Byte>)
    requires |src| <= buffer.Length
    modifies buffer
    ensures buffer[..] == src + old(buffer[|src|..])
  {
    var i := 0;
    while i < |src|
      invariant i <= |src|
      invariant buffer[..i] == src[..i]
      invariant buffer[i..] == old(buffer[i..])
    {
      buffer[i] := src[i];
      i := i + 1;
    }
  }
}
