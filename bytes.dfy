/** Kotlin's fixed-width integers as the classifier uses them: the 32-bit `Int`
    of a packed pixel, the signed 8-bit `Byte` a `ByteBuffer` stores, and the two
    conversions between them (`Int.toByte()` and `Byte.toInt() and 0xFF`). */
module Bytes {

  /** Kotlin `Int`: two's complement, 32 bits. */
  type int32 = x: int | -0x8000_0000 <= x < 0x8000_0000

  /** Kotlin `Byte` (Java `byte`): two's complement, 8 bits. */
  type int8 = x: int | -0x80 <= x < 0x80

  /** An unsigned byte value, as the model's quantised tensors mean them. */
  type uint8 = x: int | 0 <= x < 0x100

  /** `Int.toByte()`: keeps the low 8 bits and reads them as a signed byte. */
  function ToByte(v: int): (b: int8)
    ensures (b - v) % 0x100 == 0
  {
    var low := v % 0x100;
    if low < 0x80 then low else low - 0x100
  }

  /** `b.toInt() and 0xFF`: sign-extends the byte and masks off all but the low
      8 bits, which reads the byte as unsigned. Dafny's `%` is Euclidean, so
      `% 0x100` is the low 8 bits of the two's complement representation. */
  function ToUnsigned(b: int8): (u: uint8)
    ensures u == b || u == b + 0x100
    ensures u < 0x80 <==> 0 <= b
  {
    b % 0x100
  }

  /** Writing an unsigned value with `toByte()` and reading it back with
      `and 0xFF` gives the value back. */
  lemma UnsignedRoundTrip(v: uint8)
    ensures ToUnsigned(ToByte(v)) == v
  {
  }

  /** For any `Int`, the round trip keeps exactly the low 8 bits. */
  lemma UnsignedOfToByte(v: int)
    ensures ToUnsigned(ToByte(v)) == v % 0x100
  {
  }

  /** The other direction: no information is lost reading a byte as unsigned. */
  lemma SignedRoundTrip(b: int8)
    ensures ToByte(ToUnsigned(b)) == b
  {
  }

  /** `toByte()` is one-to-one on unsigned values, so distinct channel
      intensities stay distinct in the buffer. */
  lemma ToByteInjective(v: uint8, w: uint8)
    requires ToByte(v) == ToByte(w)
    ensures v == w
  {
    UnsignedRoundTrip(v);
    UnsignedRoundTrip(w);
  }

  /** The unsigned reading of a whole byte sequence, element by element. */
  function Unsigned(s: seq<int8>): (u: seq<uint8>)
    ensures |u| == |s|
    ensures forall i :: 0 <= i < |s| ==> ToByte(u[i]) == s[i]
  {
    seq(|s|, i requires 0 <= i < |s| => ToUnsigned(s[i]))
  }

  lemma UnsignedAppend(s: seq<int8>, t: seq<int8>)
    ensures Unsigned(s + t) == Unsigned(s) + Unsigned(t)
  {
    assert forall i :: 0 <= i < |s + t| ==>
      Unsigned(s + t)[i] == (Unsigned(s) + Unsigned(t))[i];
  }
}
