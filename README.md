# Image classification data path, in Dafny

This project models the classification path of the ImageClassification Android
app. The app runs a quantised MobileNet through TensorFlow Lite. For each
selected image, `MainActivity`:

- packs the 224×224 scaled bitmap into a 150 528-byte input tensor: rows top to
  bottom, pixels left to right, one byte each for red, green and blue;
- runs the model and reads its 1001 output bytes back as unsigned scores, scaled
  by 1/256;
- takes the first index holding the highest score;
- looks that index up in the label list that `loadLabels` built line by line.

Modules, one per component:

- `Bytes` (bytes.dfy): Kotlin `Int`/`Byte` widths, `toByte()`, and `toInt() and 0xFF`.
- `Pixels` (pixels.dfy): channel extraction by `shr`/`and` from a packed ARGB `Int`. The partner is Android's ARGB packing (`Argb`).
- `Preprocess` (preprocess.dfy): a `ByteBuffer` class with a fixed array and an
  advancing position. It also holds the `ProcessImage` nested loop (its inner
  loop is the method `PutRow`), which is proved equal to the layout function
  `Pack`, and the lemmas about `Pack`.
- `Inference` (inference.dfy): dequantisation, and the arg-max of
  `withIndex().maxByOrNull { it.value }?.index ?: 0` as a recursive function.
  An independent "first maximum" predicate characterises it, in both directions.
- `Pipeline` (pipeline.dfy): a `Classifier` class holding the activity's
  `interpreter` and `labels` fields. It has `LoadLabels`, `RunInference` and the
  "Get Predictions" loop `GetPredictions`.

Abstract inputs:

- The decoded, scaled bitmap is a `seq<seq<int32>>` with `bitmap[y][x] == getPixel(x, y)`.
- The TensorFlow Lite interpreter is a total function `Engine` from the input
  bytes to the output bytes. A class invariant says it writes `OutputSize` (1001) bytes.
- The label file is the sequence of lines that `useLines` delivers.

Integer semantics:

- Kotlin's arithmetic `shr` on an `Int` is floor division by a power of two.
- `and 0xFF` is the Euclidean remainder modulo 256.
- Dafny's `/` and `%` by a positive constant are exactly these.
- `toByte()` keeps the low 8 bits as a signed byte.

Behaviour of the code that the model keeps:

- An out-of-range class index makes `labels[predictedClass]` throw
  `IndexOutOfBoundsException`. Nothing catches it, so the handler stops at that
  image. `GetPredictions` returns `Failed(image, index)` together with the
  predictions made before it.
- 1/256, 224 and 1001 are literals in the code. The model names them `Scale`,
  `Side` and `OutputSize`.
- `loadLabels` appends every line, blank ones included, and never clears the list.

## Model

| member | source | states |
|---|---|---|
| `Bytes.ToByte` | app/src/main/java/com/example/classification_app/MainActivity.kt:210-212 | `toByte()` yields a signed byte congruent to its argument modulo 256 |
| `Bytes.ToUnsigned` | app/src/main/java/com/example/classification_app/MainActivity.kt:226 | `toInt() and 0xFF` yields 0..255, equal to the byte or the byte plus 256, below 128 exactly for non-negative bytes |
| `Bytes.UnsignedRoundTrip` | app/src/main/java/com/example/classification_app/MainActivity.kt:226 | a value 0..255 written with `toByte()` and read with `and 0xFF` comes back unchanged |
| `Bytes.UnsignedOfToByte` | app/src/main/java/com/example/classification_app/MainActivity.kt:210-212 | for any `Int`, the write/read round trip keeps exactly its low 8 bits |
| `Bytes.SignedRoundTrip` | app/src/main/java/com/example/classification_app/MainActivity.kt:226 | reading a byte unsigned and converting back gives the same byte |
| `Bytes.ToByteInjective` | app/src/main/java/com/example/classification_app/MainActivity.kt:210-212 | distinct intensities 0..255 give distinct bytes |
| `Pixels.ChannelsOfPattern` | app/src/main/java/com/example/classification_app/MainActivity.kt:210-212 | `px shr 16 and 0xFF`, `px shr 8 and 0xFF` and `px and 0xFF` are bits 16..23, 8..15 and 0..7 of the pixel's unsigned 32-bit pattern, for negative `Int`s too |
| `Pixels.Argb` | app/src/main/java/com/example/classification_app/MainActivity.kt:208 | the packed pixel's 32-bit pattern is alpha, red, green, blue in bits 24, 16, 8, 0 |
| `Pixels.ChannelsOfArgb` | app/src/main/java/com/example/classification_app/MainActivity.kt:208-212 | `shr 16 and 0xFF`, `shr 8 and 0xFF` and `and 0xFF` read back the red, green and blue that were packed, for every alpha |
| `Pixels.ArgbOfChannels` | app/src/main/java/com/example/classification_app/MainActivity.kt:208-212 | every pixel is re-packed exactly from its alpha byte and its three extracted channels |
| `Pixels.ChannelsOfLowBits` | app/src/main/java/com/example/classification_app/MainActivity.kt:210-212 | red, green and blue are bits 16..23, 8..15 and 0..7 of the pixel, read from its low 24 bits alone |
| `Pixels.AlphaIgnored` | app/src/main/java/com/example/classification_app/MainActivity.kt:210-212 | two pixels that differ only in bits 24..31 give the same three channels |
| `Preprocess.PixelBytes` | app/src/main/java/com/example/classification_app/MainActivity.kt:210-212 | each pixel gives three bytes, which read back unsigned as its red, green and blue in that order |
| `Preprocess.PackRowAt` | app/src/main/java/com/example/classification_app/MainActivity.kt:207-213 | within a row, pixel `x` occupies bytes `3x`..`3x+2` |
| `Preprocess.PackRow` | app/src/main/java/com/example/classification_app/MainActivity.kt:207-213 | a row packs to three bytes per pixel |
| `Preprocess.Pack` | app/src/main/java/com/example/classification_app/MainActivity.kt:206-213 | the packed bitmap has three bytes per pixel, over all its rows |
| `Preprocess.PackLength` | app/src/main/java/com/example/classification_app/MainActivity.kt:203-214 | rows of 224 pixels pack to exactly 224·3 bytes per row |
| `Preprocess.PackAt` | app/src/main/java/com/example/classification_app/MainActivity.kt:206-213 | the byte at `3*(y*224 + x) + c` is channel `c` of pixel `(x, y)`: row-major, `y` outer, `x` inner |
| `Preprocess.InputLayout` | app/src/main/java/com/example/classification_app/MainActivity.kt:206-213 | a 224×224 bitmap packs to `InputSize` bytes, and every pixel's red, green and blue read back unsigned at its three offsets |
| `Preprocess.SolidPack` | app/src/main/java/com/example/classification_app/MainActivity.kt:206-214 | a bitmap of one colour packs to that colour's three bytes, repeated once per pixel of a row, once per row |
| `Preprocess.SolidRed` | app/src/main/java/com/example/classification_app/MainActivity.kt:206-214 | a solid (255,0,0) 224×224 bitmap, whatever its alpha, reads back as `[255,0,0]` repeated 224·224 times |
| `Preprocess.ByteBuffer.Allocate` | app/src/main/java/com/example/classification_app/MainActivity.kt:203 | `allocateDirect` gives a fresh zero-filled buffer of the requested capacity at position 0 |
| `Preprocess.ByteBuffer.Put` | app/src/main/java/com/example/classification_app/MainActivity.kt:210-212 | a relative `put` stores the byte at the position, advances it by one and changes no other byte |
| `Preprocess.ByteBuffer.Rewind` | app/src/main/java/com/example/classification_app/MainActivity.kt:216 | `rewind` resets the position to 0 |
| `Preprocess.PutPixel` | app/src/main/java/com/example/classification_app/MainActivity.kt:208-212 | the three `put` calls append the pixel's red, green and blue bytes and advance the position by 3; the bytes from the new position on are unchanged |
| `Preprocess.PutRow` | app/src/main/java/com/example/classification_app/MainActivity.kt:207-213 | the inner loop appends the packed row, 3 bytes per pixel, left to right; the bytes from the new position on are unchanged |
| `Preprocess.ProcessImage` | app/src/main/java/com/example/classification_app/MainActivity.kt:197-218 | the returned buffer is fresh, has capacity `224*224*3` and position 0, and holds exactly `Pack(bitmap)`: no `put` overflows and no byte is left unwritten |
| `Inference.Dequantize` | app/src/main/java/com/example/classification_app/MainActivity.kt:226 | a score lies in [0, 1), and 256 times the score is the unsigned output byte |
| `Inference.DequantizeAll` | app/src/main/java/com/example/classification_app/MainActivity.kt:224-227 | the score vector has the output's length, and score `i` is fixed by output byte `i` alone |
| `Inference.DequantizeEnds` | app/src/main/java/com/example/classification_app/MainActivity.kt:226 | the byte 0 decodes to 0 and the byte 255 to 255/256 |
| `Inference.DequantizeOrder` | app/src/main/java/com/example/classification_app/MainActivity.kt:226 | scaling preserves and reflects the order of the unsigned bytes, and is one-to-one |
| `Inference.ArgMax` | app/src/main/java/com/example/classification_app/MainActivity.kt:153 | the result is 0 on an empty vector and an index in range otherwise |
| `Inference.ArgMaxIsFirstMax` | app/src/main/java/com/example/classification_app/MainActivity.kt:153 | on a non-empty vector the result holds the maximum and every earlier index holds strictly less |
| `Inference.FirstMaxIsArgMax` | app/src/main/java/com/example/classification_app/MainActivity.kt:153 | an index is the first maximum if and only if it is the arg-max |
| `Inference.ArgMaxTie` | app/src/main/java/com/example/classification_app/MainActivity.kt:153 | of two equal maxima at `i < j`, where every score before `i` is strictly smaller, `i` is chosen |
| `Inference.ArgMaxStrict` | app/src/main/java/com/example/classification_app/MainActivity.kt:153 | a strictly largest score is chosen |
| `Inference.ArgMaxOrderInvariant` | app/src/main/java/com/example/classification_app/MainActivity.kt:153 | vectors whose entries compare alike have the same arg-max |
| `Inference.ArgMaxOfScores` | app/src/main/java/com/example/classification_app/MainActivity.kt:152-153 | the class chosen from the float scores is the first index of the largest unsigned output byte |
| `Inference.StrictWinner` | app/src/main/java/com/example/classification_app/MainActivity.kt:152-153 | an output byte strictly above all others decides the class |
| `Pipeline.LabelAt` | app/src/main/java/com/example/classification_app/MainActivity.kt:155 | the lookup yields `labels[index]` exactly when the index is in range of the list, and otherwise the out-of-range failure for that index |
| `Pipeline.PredictedClass` | app/src/main/java/com/example/classification_app/MainActivity.kt:150-153 | an image's class is the first index holding the largest unsigned output byte of the model run on its packed bytes, 0 for an empty output, and below 1001 for the reference model |
| `Pipeline.Classifier.constructor` | app/src/main/java/com/example/classification_app/MainActivity.kt:44-54 | after `onCreate`'s `loadModel` call (line 54) has set the `lateinit` interpreter (line 176), and before `loadLabels`, the interpreter is set and the label list is empty |
| `Pipeline.Classifier.LoadLabels` | app/src/main/java/com/example/classification_app/MainActivity.kt:183-195 | the label list becomes the old list followed by every line, in file order |
| `Pipeline.Classifier.RunInference` | app/src/main/java/com/example/classification_app/MainActivity.kt:220-230 | a fresh array of 1001 scores, score `i` being output byte `i` of the interpreter, dequantised |
| `Pipeline.Classifier.GetPredictions` | app/src/main/java/com/example/classification_app/MainActivity.kt:146-157 | starting from an empty list, prediction `i` is the label of image `i`'s class, in selection order. The run completes with one prediction per image, or stops at the first image whose class has no label, reporting that image and index |
| `Pipeline.CompletedIffAllLabelled` | app/src/main/java/com/example/classification_app/MainActivity.kt:147-156 | under the handler's contract, a run completes if and only if every image's class is below the label count |
| `Pipeline.FullTableLabelsEveryImage` | app/src/main/java/com/example/classification_app/MainActivity.kt:153-155 | with one label per class (1001 labels) the lookup of every image's class succeeds |
| `Pipeline.CatScenario` | app/src/main/java/com/example/classification_app/MainActivity.kt:149-155 | output byte 3 at 255, every other byte lower and label 3 "cat": the image is predicted "cat" |

## Left out

- Compose UI: the `MyApp` state, the button-enable flags, the image gallery, the "Remove Images" reset and the preview (lines 58-165, 232-238). It is presentation state, not the data path.
- Opening and decoding the image and `Bitmap.createScaledBitmap` (lines 198-201): foreign Android calls. Their result, a 224×224 pixel grid, is the model's input, so the grid is required to have that size. For an undecodable stream `decodeStream` returns null and `createScaledBitmap` throws `NullPointerException`, which ends the handler like the out-of-range label lookup. `GetPredictions` takes grids already decoded, so the model never takes this path.
- TensorFlow Lite: building the `Interpreter` and what `run` computes (lines 176, 222) are foreign code. The interpreter is an abstract function that yields 1001 bytes.
- `loadModel` (lines 167-181) is I/O. So are the asset stream, `useLines`' line splitting and the catch-and-`printStackTrace` handling in `loadLabels`. A read that fails part-way is modelled as a shorter `lines` sequence.
- A failed `loadModel` leaves the `lateinit` interpreter unset, so the first `runInference` would throw. The model assumes the load succeeded.
- Floating point: `* 0.00390625f` is modelled on `real`. It is exact, because every q/256 with q in 0..255 is representable in binary32. NaN, signed zeros and rounding cannot arise, so `maxByOrNull`'s float comparison is ordinary `<`.
- `ByteOrder.nativeOrder()` (lines 172, 204) has no effect on single-byte `put` calls.
- Preprocess.ByteBuffer.Put: the library's `BufferOverflowException` on a full buffer is a precondition. Its only caller is `PutPixel`, reached only through `PutRow` from `ProcessImage`, and `ProcessImage` is proved never to break it.
- Pipeline.Classifier.GetPredictions: the uncaught exception ends the handler, and in the app it ends the process. The model returns the predictions made so far with `Failed`, and does not model what the UI shows afterwards.
- Determinism of classifying the same image twice holds by construction, because every step is a function. No separate lemma states it.
