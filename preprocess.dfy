/** The image preprocessor: `processImage` packs a 224×224 bitmap into the
    model's input tensor, a direct `ByteBuffer` of 224*224*3 bytes laid out row
    by row, pixel by pixel, as red, green, blue. */
module Preprocess {
  import opened Bytes
  import opened Pixels

  /** Width and height the bitmap is scaled to before packing. */
  const Side: nat := 224

  /** Bytes per pixel: red, green, blue (alpha is dropped). */
  const Channels: nat := 3

  /** Size of the input tensor, as allocated by `ByteBuffer.allocateDirect`. */
  const InputSize: nat := Side * Side * Channels

  /** A decoded bitmap as rows of packed ARGB pixels: `bitmap[y][x]` is
      `getPixel(x, y)`. */
  type Bitmap = seq<seq<int32>>

  /** The bitmap has `h` rows of `w` pixels each. */
  predicate HasSize(bitmap: Bitmap, w: nat, h: nat)
  {
    |bitmap| == h && forall y :: 0 <= y < h ==> |bitmap[y]| == w
  }

  /** The three bytes written for one pixel, in the order of the `put` calls. */
  function PixelBytes(px: int32): (bs: seq<int8>)
    ensures |bs| == Channels
    ensures Unsigned(bs) == [Red(px), Green(px), Blue(px)]
  {
    var r, g, b := Red(px), Green(px), Blue(px);
    UnsignedRoundTrip(r);
    UnsignedRoundTrip(g);
    UnsignedRoundTrip(b);
    [ToByte(r), ToByte(g), ToByte(b)]
  }

  /** The bytes written for a row of pixels, left to right: three per pixel. */
  function PackRow(row: seq<int32>): (bytes: seq<int8>)
    ensures |bytes| == Channels * |row|
  {
    if row == [] then [] else PackRow(row[..|row| - 1]) + PixelBytes(row[|row| - 1])
  }

  /** The number of pixels in the bitmap, over all its rows. */
  function PixelCount(bitmap: Bitmap): nat
  {
    if bitmap == [] then 0 else PixelCount(bitmap[..|bitmap| - 1]) + |bitmap[|bitmap| - 1]|
  }

  /** A bitmap of `h` rows of `w` pixels has `w * h` pixels. */
  lemma {:induction false} PixelCountOfSize(bitmap: Bitmap, w: nat)
    requires forall y :: 0 <= y < |bitmap| ==> |bitmap[y]| == w
    ensures PixelCount(bitmap) == w * |bitmap|
  {
    if bitmap != [] {
      var n := |bitmap|;
      assert forall y :: 0 <= y < n - 1 ==> bitmap[..n - 1][y] == bitmap[y];
      PixelCountOfSize(bitmap[..n - 1], w);
      MulStep(w, n - 1);
    }
  }

  /** The bytes written for a bitmap, rows top to bottom: three per pixel. */
  function Pack(bitmap: Bitmap): (bytes: seq<int8>)
    ensures |bytes| == Channels * PixelCount(bitmap)
  {
    if bitmap == [] then [] else Pack(bitmap[..|bitmap| - 1]) + PackRow(bitmap[|bitmap| - 1])
  }

  /** Pixel `x` of a row lands at bytes `3*x .. 3*x + 2`. */
  lemma {:induction false} PackRowAt(row: seq<int32>, x: nat, c: nat)
    requires x < |row| && c < Channels
    ensures |PackRow(row)| == Channels * |row|
    ensures PackRow(row)[Channels * x + c] == PixelBytes(row[x])[c]
  {
    var n := |row|;
    if x < n - 1 {
      PackRowAt(row[..n - 1], x, c);
    }
  }

  /** A bitmap of 224-pixel rows packs to `224 * 3` bytes per row. */
  lemma PackLength(bitmap: Bitmap)
    requires forall y :: 0 <= y < |bitmap| ==> |bitmap[y]| == Side
    ensures |Pack(bitmap)| == Side * Channels * |bitmap|
  {
    PixelCountOfSize(bitmap, Side);
  }

  /** Row-major layout: channel `c` of pixel `(x, y)` is the byte at offset
      `3 * (y * 224 + x) + c`. */
  lemma {:induction false} PackAt(bitmap: Bitmap, y: nat, x: nat, c: nat)
    requires forall y :: 0 <= y < |bitmap| ==> |bitmap[y]| == Side
    requires y < |bitmap| && x < Side && c < Channels
    ensures |Pack(bitmap)| == Side * Channels * |bitmap|
    ensures Pack(bitmap)[Channels * (y * Side + x) + c] == PixelBytes(bitmap[y][x])[c]
  {
    var n := |bitmap|;
    if y < n - 1 {
      var prefix := bitmap[..n - 1];
      assert forall y :: 0 <= y < n - 1 ==> prefix[y] == bitmap[y];
      PackAt(prefix, y, x, c);
      OffsetInRows(y, x, c, n - 1);
    } else {
      PackAtLastRow(bitmap, x, c);
    }
  }

  /** The last row's bytes follow those of all the rows before it. */
  lemma PackAtLastRow(bitmap: Bitmap, x: nat, c: nat)
    requires forall y :: 0 <= y < |bitmap| ==> |bitmap[y]| == Side
    requires bitmap != [] && x < Side && c < Channels
    ensures |Pack(bitmap)| == Side * Channels * |bitmap|
    ensures Pack(bitmap)[Channels * ((|bitmap| - 1) * Side + x) + c] ==
      PixelBytes(bitmap[|bitmap| - 1][x])[c]
  {
    var n := |bitmap|;
    var prefix, last := bitmap[..n - 1], bitmap[n - 1];
    assert forall y :: 0 <= y < n - 1 ==> prefix[y] == bitmap[y];
    PackRowAt(last, x, c);
    PackLength(prefix);
    assert Channels * ((n - 1) * Side + x) + c == |Pack(prefix)| + Channels * x + c;
  }

  /** The bytes of pixel `(x, y)` lie within the first `rows` rows when `y` does. */
  lemma OffsetInRows(y: nat, x: nat, c: nat, rows: nat)
    requires y < rows && x < Side && c < Channels
    ensures Channels * (y * Side + x) + c < Side * Channels * rows
  {
    MulMonotone(y + 1, rows, Side * Channels);
  }

  /** The input tensor's layout, read back unsigned as the model reads it: for
      every pixel, its red, green and blue intensity at consecutive offsets. */
  lemma InputLayout(bitmap: Bitmap, y: nat, x: nat)
    requires HasSize(bitmap, Side, Side)
    requires y < Side && x < Side
    ensures |Pack(bitmap)| == InputSize
    ensures ToUnsigned(Pack(bitmap)[Channels * (y * Side + x)]) == Red(bitmap[y][x])
    ensures ToUnsigned(Pack(bitmap)[Channels * (y * Side + x) + 1]) == Green(bitmap[y][x])
    ensures ToUnsigned(Pack(bitmap)[Channels * (y * Side + x) + 2]) == Blue(bitmap[y][x])
  {
    var px := bitmap[y][x];
    PackAt(bitmap, y, x, 0);
    PackAt(bitmap, y, x, 1);
    PackAt(bitmap, y, x, 2);
    UnsignedRoundTrip(Red(px));
    UnsignedRoundTrip(Green(px));
    UnsignedRoundTrip(Blue(px));
  }

  /** `n` copies of `s`, one after another. */
  function Repeat<T>(s: seq<T>, n: nat): (r: seq<T>)
  {
    if n == 0 then [] else Repeat(s, n - 1) + s
  }

  lemma {:induction false} RepeatAdd<T>(s: seq<T>, m: nat, n: nat)
    ensures Repeat(s, m) + Repeat(s, n) == Repeat(s, m + n)
  {
    if n > 0 {
      RepeatAdd(s, m, n - 1);
    }
  }

  lemma {:induction false} UnsignedRepeat(s: seq<int8>, n: nat)
    ensures Unsigned(Repeat(s, n)) == Repeat(Unsigned(s), n)
  {
    if n > 0 {
      UnsignedRepeat(s, n - 1);
      UnsignedAppend(Repeat(s, n - 1), s);
    }
  }

  /** A row whose pixels all have the colour `(r, g, b)` packs to that
      colour's three bytes, once per pixel. */
  lemma {:induction false} SolidRow(row: seq<int32>, r: uint8, g: uint8, b: uint8)
    requires forall x :: 0 <= x < |row| ==>
      Red(row[x]) == r && Green(row[x]) == g && Blue(row[x]) == b
    ensures PackRow(row) == Repeat([ToByte(r), ToByte(g), ToByte(b)], |row|)
  {
    if row != [] {
      SolidRow(row[..|row| - 1], r, g, b);
    }
  }

  lemma {:induction false} SolidPack(bitmap: Bitmap, w: nat, r: uint8, g: uint8, b: uint8)
    requires forall y :: 0 <= y < |bitmap| ==> |bitmap[y]| == w
    requires forall y, x :: 0 <= y < |bitmap| && 0 <= x < w ==>
      Red(bitmap[y][x]) == r && Green(bitmap[y][x]) == g && Blue(bitmap[y][x]) == b
    ensures Pack(bitmap) == Repeat(Repeat([ToByte(r), ToByte(g), ToByte(b)], w), |bitmap|)
  {
    if bitmap != [] {
      var n := |bitmap|;
      var prefix, last := bitmap[..n - 1], bitmap[n - 1];
      assert forall y :: 0 <= y < n - 1 ==> prefix[y] == bitmap[y];
      SolidPack(prefix, w, r, g, b);
      SolidRow(last, r, g, b);
    }
  }

  /** `n` copies of `w` copies of `s` are `w * n` copies of `s`. */
  lemma {:induction false} RepeatRepeat<T>(s: seq<T>, w: nat, n: nat)
    ensures Repeat(Repeat(s, w), n) == Repeat(s, w * n)
  {
    if n > 0 {
      RepeatRepeat(s, w, n - 1);
      MulStep(w, n - 1);
      RepeatAdd(s, w * (n - 1), w);
    }
  }

  lemma MulStep(w: nat, n: nat)
    ensures 0 <= w * n && w * n + w == w * (n + 1)
  {
  }

  /** A solid red 224×224 bitmap, whatever its alpha, packs to `[255, 0, 0]`
      repeated once per pixel. */
  lemma SolidRed(bitmap: Bitmap)
    requires HasSize(bitmap, Side, Side)
    requires forall y, x :: 0 <= y < Side && 0 <= x < Side ==>
      Red(bitmap[y][x]) == 255 && Green(bitmap[y][x]) == 0 && Blue(bitmap[y][x]) == 0
    ensures Unsigned(Pack(bitmap)) == Repeat<uint8>([255, 0, 0], Side * Side)
  {
    SolidPack(bitmap, Side, 255, 0, 0);
    RepeatRepeat([ToByte(255), ToByte(0), ToByte(0)], Side, Side);
    UnsignedRepeat([ToByte(255), ToByte(0), ToByte(0)], Side * Side);
    assert Unsigned([ToByte(255), ToByte(0), ToByte(0)]) == [255, 0, 0];
  }

  /** A `java.nio.ByteBuffer` as `processImage` uses it: a fixed-capacity
      array of bytes and a position that each relative `put` advances. */
  class ByteBuffer {
    const data: array<int8>
    var position: nat

    ghost predicate Valid()
      reads this
    {
      position <= data.Length
    }

    /** The bytes put so far. */
    ghost function Written(): seq<int8>
      reads this, data
      requires Valid()
    {
      data[..position]
    }

    /** `ByteBuffer.allocateDirect(capacity)`: zero-filled, position 0. */
    constructor Allocate(capacity: nat)
      ensures Valid() && fresh(data)
      ensures data.Length == capacity && position == 0
      ensures forall i :: 0 <= i < capacity ==> data[i] == 0
    {
      data := new int8[capacity](_ => 0);
      position := 0;
    }

    /** Relative `put(b)`: stores `b` at the position and advances it. The
        library throws `BufferOverflowException` on a full buffer. Its only
        caller, `PutPixel`, is reached only through `PutRow` from
        `ProcessImage`, which is shown never to reach that, so it is a
        precondition here. */
    method Put(b: int8)
      requires Valid() && position < data.Length
      modifies this, data
      ensures Valid()
      ensures position == old(position) + 1
      ensures data[..] == old(data[..])[old(position) := b]
      ensures Written() == old(Written()) + [b]
    {
      data[position] := b;
      position := position + 1;
      assert data[..position] == old(data[..position]) + [b];
    }

    /** `rewind()`: position back to 0, contents untouched. */
    method Rewind()
      requires Valid()
      modifies this
      ensures Valid() && position == 0
    {
      position := 0;
    }
  }

  /** The body of the inner loop: one `put` per channel of the pixel. */
  method PutPixel(buffer: ByteBuffer, px: int32)
    requires buffer.Valid() && buffer.position + Channels <= buffer.data.Length
    modifies buffer, buffer.data
    ensures buffer.Valid()
    ensures buffer.position == old(buffer.position) + Channels
    ensures buffer.Written() == old(buffer.Written()) + PixelBytes(px)
    ensures buffer.data[buffer.position..] == old(buffer.data[..])[buffer.position..]
  {
    buffer.Put(ToByte(Red(px)));    // red
    buffer.Put(ToByte(Green(px)));  // green
    buffer.Put(ToByte(Blue(px)));   // blue
  }

  /** The inner loop of `processImage`: the pixels of one row, left to right. */
  method PutRow(buffer: ByteBuffer, row: seq<int32>)
    requires buffer.Valid() && buffer.position + Channels * |row| <= buffer.data.Length
    modifies buffer, buffer.data
    ensures buffer.Valid()
    ensures buffer.position == old(buffer.position) + Channels * |row|
    ensures buffer.Written() == old(buffer.Written()) + PackRow(row)
    ensures buffer.data[buffer.position..] == old(buffer.data[..])[buffer.position..]
  {
    for x := 0 to |row|
      invariant buffer.Valid()
      invariant buffer.position == old(buffer.position) + Channels * x
      invariant buffer.Written() == old(buffer.Written()) + PackRow(row[..x])
      invariant buffer.data[buffer.position..] == old(buffer.data[..])[buffer.position..]
    {
      PutPixel(buffer, row[x]);
      assert row[..x + 1][..x] == row[..x];
    }
    assert row[..|row|] == row;
  }

  /** `processImage` after decoding and scaling: allocates the input tensor and
      fills it with one `put` per channel of every pixel, `y` outer and `x`
      inner (the inner loop is `PutRow`), then rewinds it for the interpreter.
      Exactly `InputSize` bytes are written: no `put` overflows and none of the
      buffer is left unwritten. */
  method ProcessImage(bitmap: Bitmap) returns (buffer: ByteBuffer)
    requires HasSize(bitmap, Side, Side)
    ensures fresh(buffer) && fresh(buffer.data)
    ensures buffer.Valid() && buffer.position == 0
    ensures buffer.data.Length == InputSize
    ensures buffer.data[..] == Pack(bitmap)
  {
    buffer := new ByteBuffer.Allocate(InputSize);
    for y := 0 to Side
      invariant buffer.Valid() && buffer.data.Length == InputSize
      invariant buffer.position == Channels * Side * y
      invariant buffer.Written() == Pack(bitmap[..y])
    {
      assert bitmap[..y + 1][..y] == bitmap[..y];
      PutRow(buffer, bitmap[y]);
    }
    assert bitmap[..Side] == bitmap;
    assert buffer.data[..] == buffer.Written();
    buffer.Rewind();
  }
}
