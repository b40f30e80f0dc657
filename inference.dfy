/** Decoding the interpreter's output: the quantised scores are read as unsigned
    bytes and scaled by 1/256 (`runInference`), and the predicted class is the
    first index holding the highest score
    (`withIndex().maxByOrNull { it.value }?.index ?: 0`). */
module Inference {
  import opened Bytes

  /** Number of classes the model scores, the length of its output array. */
  const OutputSize: nat := 1001

  /** The model's quantisation scale, `0.00390625f` = 1/256. */
  const Scale: real := 0.00390625

  /** One dequantised score. The source multiplies in 32-bit floating point;
      both factors and every product are exact in that format, so the value
      is modelled as a real. */
  function Dequantize(b: int8): (score: real)
    ensures 0.0 <= score < 1.0
    ensures score * 256.0 == ToUnsigned(b) as real
  {
    (ToUnsigned(b) as real) * Scale
  }

  /** The dequantised output vector: element `i` depends on output byte `i` only. */
  function DequantizeAll(output: seq<int8>): (scores: seq<real>)
    ensures |scores| == |output|
    ensures forall i :: 0 <= i < |output| ==> scores[i] * 256.0 == ToUnsigned(output[i]) as real
  {
    seq(|output|, i requires 0 <= i < |output| => Dequantize(output[i]))
  }

  /** The decoded ends of the byte range: 0 maps to 0 and 255 to 255/256. */
  lemma DequantizeEnds()
    ensures Dequantize(0) == 0.0
    ensures Dequantize(ToByte(255)) == 255.0 / 256.0
  {
  }

  /** Scaling keeps the order of the unsigned byte values, in both directions. */
  lemma DequantizeOrder(a: int8, b: int8)
    ensures Dequantize(a) < Dequantize(b) <==> ToUnsigned(a) < ToUnsigned(b)
    ensures Dequantize(a) == Dequantize(b) <==> a == b
  {
    SignedRoundTrip(a);
    SignedRoundTrip(b);
  }

  /** `maxByOrNull` keeps the first element and replaces it only by a strictly
      larger one while scanning left to right; `?: 0` covers the empty vector. */
  function ArgMax(s: seq<real>): (k: nat)
    ensures s == [] ==> k == 0
    ensures s != [] ==> k < |s|
  {
    if |s| <= 1 then 0
    else
      var k := ArgMax(s[..|s| - 1]);
      if s[k] < s[|s| - 1] then |s| - 1 else k
  }

  /** `k` holds the largest value of `s`, and no earlier index holds it. */
  ghost predicate IsFirstMax(s: seq<real>, k: int)
  {
    0 <= k < |s| &&
    (forall j :: 0 <= j < |s| ==> s[j] <= s[k]) &&
    (forall j :: 0 <= j < k ==> s[j] < s[k])
  }

  lemma {:induction false} ArgMaxIsFirstMax(s: seq<real>)
    requires s != []
    ensures IsFirstMax(s, ArgMax(s))
  {
    if |s| > 1 {
      var t := s[..|s| - 1];
      ArgMaxIsFirstMax(t);
      assert forall j :: 0 <= j < |t| ==> s[j] == t[j];
    }
  }

  /** The first maximum is unique, so it characterises `ArgMax` completely. */
  lemma FirstMaxIsArgMax(s: seq<real>, k: int)
    requires s != []
    ensures IsFirstMax(s, k) <==> k == ArgMax(s)
  {
    ArgMaxIsFirstMax(s);
  }

  /** Tie-break: when indices `i < j` both hold the maximum and nothing before
      `i` does, `i` is chosen. */
  lemma ArgMaxTie(s: seq<real>, i: nat, j: nat)
    requires i < j < |s| && s[i] == s[j]
    requires forall h :: 0 <= h < |s| ==> s[h] <= s[i]
    requires forall h :: 0 <= h < i ==> s[h] < s[i]
    ensures ArgMax(s) == i && ArgMax(s) != j
  {
    FirstMaxIsArgMax(s, i);
  }

  /** A strictly largest score wins. */
  lemma ArgMaxStrict(s: seq<real>, k: nat)
    requires k < |s|
    requires forall j :: 0 <= j < |s| && j != k ==> s[j] < s[k]
    ensures ArgMax(s) == k
  {
    FirstMaxIsArgMax(s, k);
  }

  /** Arg-max only looks at the order of the values: two vectors whose entries
      compare alike have the same arg-max. */
  lemma ArgMaxOrderInvariant(s: seq<real>, t: seq<real>)
    requires |s| == |t|
    requires forall i, j :: 0 <= i < |s| && 0 <= j < |s| ==> (s[i] < s[j] <==> t[i] < t[j])
    ensures ArgMax(s) == ArgMax(t)
  {
    if s != [] {
      var k := ArgMax(s);
      ArgMaxIsFirstMax(s);
      assert IsFirstMax(t, k);
      FirstMaxIsArgMax(t, k);
    }
  }

  /** The class chosen from the dequantised scores is the first index holding
      the largest unsigned output byte: arg-max over the floats is arg-max over
      the bytes. */
  lemma ArgMaxOfScores(output: seq<int8>)
    requires output != []
    ensures var k := ArgMax(DequantizeAll(output));
      k < |output| &&
      (forall j :: 0 <= j < |output| ==> ToUnsigned(output[j]) <= ToUnsigned(output[k])) &&
      (forall j :: 0 <= j < k ==> ToUnsigned(output[j]) < ToUnsigned(output[k]))
  {
    var scores := DequantizeAll(output);
    ArgMaxIsFirstMax(scores);
    var k := ArgMax(scores);
    forall j | 0 <= j < |output|
      ensures ToUnsigned(output[j]) <= ToUnsigned(output[k])
      ensures j < k ==> ToUnsigned(output[j]) < ToUnsigned(output[k])
    {
      DequantizeOrder(output[j], output[k]);
      DequantizeOrder(output[k], output[j]);
    }
  }

  /** An output byte strictly above all others decides the class. */
  lemma StrictWinner(output: seq<int8>, k: nat)
    requires k < |output|
    requires forall j :: 0 <= j < |output| && j != k ==>
      ToUnsigned(output[j]) < ToUnsigned(output[k])
    ensures ArgMax(DequantizeAll(output)) == k
  {
    var scores := DequantizeAll(output);
    forall j | 0 <= j < |output| && j != k
      ensures scores[j] < scores[k]
    {
      DequantizeOrder(output[j], output[k]);
    }
    ArgMaxStrict(scores, k);
  }
}
