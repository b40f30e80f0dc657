/** The classification path of the activity: the label table it loads, the
    inference step, and the "Get Predictions" handler that classifies every
    selected image in turn. */
module Pipeline {
  import opened Bytes
  import opened Preprocess
  import opened Inference

  /** The TensorFlow Lite interpreter with the quantised model loaded: given the
      input tensor's bytes, the bytes `run` leaves in the output array. */
  type Engine = seq<int8> -> seq<int8>

  /** The reference model writes one score per class. */
  ghost predicate Conforms(engine: Engine)
  {
    forall input :: |engine(input)| == OutputSize
  }

  /** `labels[index]` either yields a label or throws `IndexOutOfBoundsException`. */
  datatype Lookup = Found(name: string) | IndexOutOfRange(index: int)

  function LabelAt(labels: seq<string>, index: int): (r: Lookup)
    ensures r.Found? <==> 0 <= index < |labels|
    ensures r.Found? ==> r.name == labels[index]
    ensures r.IndexOutOfRange? ==> r.index == index
  {
    if 0 <= index < |labels| then Found(labels[index]) else IndexOutOfRange(index)
  }

  /** The class one bitmap is assigned: pack it, run the model, dequantise,
      take the first maximum. That is the first index holding the largest
      unsigned output byte, and 0 when the output is empty. */
  function PredictedClass(engine: Engine, bitmap: Bitmap): (k: nat)
    ensures var output := engine(Pack(bitmap));
      (output == [] ==> k == 0) &&
      (output != [] ==>
        k < |output| &&
        (forall j :: 0 <= j < |output| ==> ToUnsigned(output[j]) <= ToUnsigned(output[k])) &&
        (forall j :: 0 <= j < k ==> ToUnsigned(output[j]) < ToUnsigned(output[k])))
    ensures Conforms(engine) ==> k < OutputSize
  {
    var output := engine(Pack(bitmap));
    if output == [] then 0
    else
      ArgMaxOfScores(output);
      ArgMax(DequantizeAll(output))
  }

  /** How a run of the handler ends: every image classified, or the exception
      thrown by the label lookup for image number `image`. */
  datatype Outcome = Completed | Failed(image: nat, index: int)

  /** The activity's state on the classification path: the interpreter created
      by `loadModel` and the `labels` list that `loadLabels` fills. */
  class Classifier {
    const interpreter: Engine
    var labels: seq<string>

    ghost predicate Valid()
      reads this
    {
      Conforms(interpreter)
    }

    /** The state after `loadModel` has succeeded, before `loadLabels`: the
        interpreter created and the label list still empty. */
    constructor (interpreter: Engine)
      requires Conforms(interpreter)
      ensures Valid() && this.interpreter == interpreter && labels == []
    {
      this.interpreter := interpreter;
      labels := [];
    }

    /** `loadLabels`: appends the lines of the label file, in file order, to the
        list (which it never clears). Each line becomes one label, blank ones
        included. */
    method LoadLabels(lines: seq<string>)
      requires Valid()
      modifies this
      ensures Valid()
      ensures labels == old(labels) + lines
    {
      for i := 0 to |lines|
        invariant labels == old(labels) + lines[..i]
      {
        labels := labels + [lines[i]];
        assert lines[..i + 1] == lines[..i] + [lines[i]];
      }
      assert lines[..|lines|] == lines;
    }

    /** `runInference`: runs the model on the input tensor and dequantises each
        of the `OutputSize` output bytes into `floatOutputArray`. */
    method RunInference(input: ByteBuffer) returns (scores: array<real>)
      requires Valid() && input.Valid()
      ensures fresh(scores)
      ensures scores.Length == OutputSize
      ensures scores[..] == DequantizeAll(interpreter(input.data[..]))
    {
      var output := interpreter(input.data[..]);
      scores := new real[|output|];
      for i := 0 to |output|
        invariant forall j :: 0 <= j < i ==> scores[j] == Dequantize(output[j])
      {
        scores[i] := Dequantize(output[i]);
      }
    }

    /** The "Get Predictions" handler: starts from an empty list and appends the
        label of each selected image, in selection order. A class index outside
        the label list stops the run at that image, with the predictions made
        before it. */
    method GetPredictions(selectedImages: seq<Bitmap>)
      returns (predictions: seq<string>, outcome: Outcome)
      requires Valid()
      requires forall i :: 0 <= i < |selectedImages| ==> HasSize(selectedImages[i], Side, Side)
      ensures |predictions| <= |selectedImages|
      ensures outcome.Completed? <==> |predictions| == |selectedImages|
      ensures forall i :: 0 <= i < |predictions| ==>
        LabelAt(labels, PredictedClass(interpreter, selectedImages[i])) == Found(predictions[i])
      ensures outcome.Failed? ==>
        outcome.image == |predictions| &&
        outcome.index == PredictedClass(interpreter, selectedImages[outcome.image]) &&
        LabelAt(labels, outcome.index) == IndexOutOfRange(outcome.index)
    {
      predictions := [];
      for i := 0 to |selectedImages|
        invariant |predictions| == i
        invariant forall j :: 0 <= j < i ==>
          LabelAt(labels, PredictedClass(interpreter, selectedImages[j])) == Found(predictions[j])
      {
        var inputImageBuffer := ProcessImage(selectedImages[i]);
        var outputData := RunInference(inputImageBuffer);
        var predictedClass := ArgMax(outputData[..]);
        match LabelAt(labels, predictedClass)
        case Found(name) =>
          predictions := predictions + [name];
        case IndexOutOfRange(index) =>
          return predictions, Failed(i, index);
      }
      outcome := Completed;
    }
  }

  /** A run completes exactly when every image's class has a label. */
  lemma CompletedIffAllLabelled(engine: Engine, labels: seq<string>, images: seq<Bitmap>,
                                predictions: seq<string>, outcome: Outcome)
    requires |predictions| <= |images|
    requires outcome.Completed? <==> |predictions| == |images|
    requires forall i :: 0 <= i < |predictions| ==>
      LabelAt(labels, PredictedClass(engine, images[i])) == Found(predictions[i])
    requires outcome.Failed? ==>
      outcome.image == |predictions| &&
      outcome.index == PredictedClass(engine, images[outcome.image]) &&
      LabelAt(labels, outcome.index) == IndexOutOfRange(outcome.index)
    ensures outcome.Completed? <==>
      forall i :: 0 <= i < |images| ==> PredictedClass(engine, images[i]) < |labels|
  {
    if !outcome.Completed? {
      var i := outcome.image;
      assert !(PredictedClass(engine, images[i]) < |labels|);
    }
  }

  /** With a full label table (one label per class, the intended pairing of
      model and labels file) every lookup succeeds. */
  lemma FullTableLabelsEveryImage(engine: Engine, labels: seq<string>, bitmap: Bitmap)
    requires Conforms(engine)
    requires |labels| == OutputSize
    ensures LabelAt(labels, PredictedClass(engine, bitmap)) ==
      Found(labels[PredictedClass(engine, bitmap)])
  {
    var output := engine(Pack(bitmap));
    assert |output| == OutputSize;
  }

  /** The end-to-end scenario: an output vector whose byte 3 is 255 and every
      other byte lower, with "cat" as label 3, is predicted "cat". */
  lemma CatScenario(engine: Engine, labels: seq<string>, bitmap: Bitmap)
    requires Conforms(engine)
    requires |labels| > 3 && labels[3] == "cat"
    requires ToUnsigned(engine(Pack(bitmap))[3]) == 255
    requires forall j :: 0 <= j < OutputSize && j != 3 ==> ToUnsigned(engine(Pack(bitmap))[j]) < 255
    ensures LabelAt(labels, PredictedClass(engine, bitmap)) == Found("cat")
  {
    var output := engine(Pack(bitmap));
    assert |output| == OutputSize;
    StrictWinner(output, 3);
  }
}
