/** Channel extraction from a packed Android ARGB pixel (`Bitmap.getPixel`
    returns the colour as a 32-bit `Int`: alpha in bits 24..31, red 16..23,
    green 8..15, blue 0..7). */
module Pixels {
  import opened Bytes

  /** Kotlin `px shr n` on `Int` is an arithmetic shift, which is floor
      division by 2^n; Dafny's `/` by a positive divisor floors too. Kotlin
      `v and 0xFF` keeps the low 8 bits of the two's complement value, which is
      the Euclidean remainder `v % 0x100`. */
  function Red(px: int32): (r: uint8)
  {
    (px / 0x1_0000) % 0x100
  }

  function Green(px: int32): (g: uint8)
  {
    (px / 0x100) % 0x100
  }

  function Blue(px: int32): (b: uint8)
  {
    px % 0x100
  }

  /** The 32 bits of the pixel read as an unsigned number. */
  function Pattern(px: int32): (u: int)
  {
    px % 0x1_0000_0000
  }

  lemma PatternOf(px: int32)
    ensures Pattern(px) == if px < 0 then px + 0x1_0000_0000 else px
  {
    var q := if px < 0 then -1 else 0;
    DivModOf(px, 0x1_0000_0000, q, px - q * 0x1_0000_0000);
  }

  /** Each channel is its own byte of the pixel's unsigned 32-bit pattern: red
      bits 16..23, green 8..15, blue 0..7, whatever the sign of the `Int`. */
  lemma ChannelsOfPattern(px: int32)
    ensures Red(px) == (Pattern(px) / 0x1_0000) % 0x100
    ensures Green(px) == (Pattern(px) / 0x100) % 0x100
    ensures Blue(px) == Pattern(px) % 0x100
  {
    var u, k := Pattern(px), if px < 0 then 1 else 0;
    PatternOf(px);
    DivModOf(u, 0x1_0000, px / 0x1_0000 + k * 0x1_0000, px % 0x1_0000);
    DivModOf(u / 0x1_0000, 0x100, px / 0x1_0000 / 0x100 + k * 0x100, px / 0x1_0000 % 0x100);
    DivModOf(u, 0x100, px / 0x100 + k * 0x100_0000, px % 0x100);
    DivModOf(u / 0x100, 0x100, px / 0x100 / 0x100 + k * 0x1_0000, px / 0x100 % 0x100);
  }

  /** Android's `Color.argb(a, r, g, b)`: the four channels packed as
      `(a shl 24) or (r shl 16) or (g shl 8) or b`, read as a signed `Int`. */
  function Argb(a: uint8, r: uint8, g: uint8, b: uint8): (px: int32)
    ensures px % 0x1_0000_0000 == a * 0x100_0000 + r * 0x1_0000 + g * 0x100 + b
  {
    var u := a * 0x100_0000 + r * 0x1_0000 + g * 0x100 + b;
    if u < 0x8000_0000 then u else u - 0x1_0000_0000
  }

  /** Euclidean division is determined by its quotient/remainder equation. */
  lemma {:induction false} DivModOf(x: int, d: int, q: int, m: int)
    requires 0 < d && 0 <= m < d && x == q * d + m
    ensures x / d == q && x % d == m
  {
    var q', m' := x / d, x % d;
    if q' < q {
      MulMonotone(q' + 1, q, d);
    } else if q < q' {
      MulMonotone(q + 1, q', d);
    }
  }

  lemma MulMonotone(a: int, b: int, d: int)
    requires a <= b && 0 < d
    ensures a * d <= b * d
  {
    assert b * d - a * d == (b - a) * d;
  }

  /** Extraction undoes packing: each channel of `Argb(a, r, g, b)` is read back
      exactly, whatever the alpha. */
  lemma ChannelsOfArgb(a: uint8, r: uint8, g: uint8, b: uint8)
    ensures Red(Argb(a, r, g, b)) == r
    ensures Green(Argb(a, r, g, b)) == g
    ensures Blue(Argb(a, r, g, b)) == b
  {
    var px := Argb(a, r, g, b);
    // Signed alpha: the top byte as two's complement sees it.
    var sa := if a < 0x80 then a else a - 0x100;
    assert px == ((sa * 0x100 + r) * 0x100 + g) * 0x100 + b;
    DivModOf(px, 0x100, (sa * 0x100 + r) * 0x100 + g, b);
    DivModOf(px, 0x1_0000, sa * 0x100 + r, g * 0x100 + b);
    DivModOf(px / 0x1_0000, 0x100, sa, r);
    DivModOf(px / 0x100, 0x100, sa * 0x100 + r, g);
  }

  /** Every pixel is some `Argb(a, r, g, b)`, with `r`, `g`, `b` its extracted
      channels: the three channels and the alpha byte account for all 32 bits. */
  lemma ArgbOfChannels(px: int32)
    ensures Argb((px / 0x100_0000) % 0x100, Red(px), Green(px), Blue(px)) == px
  {
    var r, g, b := Red(px), Green(px), Blue(px);
    var sa := px / 0x100_0000;
    DivDiv(px, 0x100, 0x100);
    DivDiv(px, 0x1_0000, 0x100);
    // Signed alpha and the three channels account for every bit.
    assert px == sa * 0x100_0000 + r * 0x1_0000 + g * 0x100 + b;
    var a := sa % 0x100;
    if sa < 0 {
      DivModOf(sa, 0x100, -1, sa + 0x100);
    } else {
      DivModOf(sa, 0x100, 0, sa);
    }
  }

  /** Dividing by `d` and then by `e` is dividing by `d * e`. */
  lemma DivDiv(x: int, d: int, e: int)
    requires 0 < d && 0 < e
    ensures x / (d * e) == (x / d) / e
  {
    var q, m := x / d, x % d;
    var q2, m2 := q / e, q % e;
    MulMonotone(m2, e - 1, d);
    assert d * q == d * (e * q2 + m2) == q2 * (d * e) + m2 * d;
    DivModOf(x, d * e, q2, m2 * d + m);
  }

  /** The three channels are read from the low 24 bits of the pixel alone. */
  lemma ChannelsOfLowBits(px: int32)
    ensures Red(px) == (px % 0x100_0000) / 0x1_0000
    ensures Green(px) == ((px % 0x100_0000) / 0x100) % 0x100
    ensures Blue(px) == (px % 0x100_0000) % 0x100
  {
    var low, sa := px % 0x100_0000, px / 0x100_0000;
    DivModOf(px, 0x1_0000, sa * 0x100 + low / 0x1_0000, low % 0x1_0000);
    DivModOf(px / 0x1_0000, 0x100, sa, low / 0x1_0000);
    DivDiv(low, 0x100, 0x100);
    DivModOf(px, 0x100, sa * 0x1_0000 + low / 0x100, low % 0x100);
    DivModOf(px / 0x100, 0x100, sa * 0x100 + low / 0x1_0000, (low / 0x100) % 0x100);
  }

  /** Alpha never reaches the buffer: two pixels that agree on their low 24
      bits have the same red, green and blue, whatever bits 24..31 hold. */
  lemma AlphaIgnored(px: int32, qx: int32)
    requires px % 0x100_0000 == qx % 0x100_0000
    ensures Red(px) == Red(qx) && Green(px) == Green(qx) && Blue(px) == Blue(qx)
  {
    ChannelsOfLowBits(px);
    ChannelsOfLowBits(qx);
  }
}
