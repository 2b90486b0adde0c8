/** `ResNet152AndATSSFaceDetector`: an ATSS head whose outputs are read as
    rows of `Shape[1]` floats, `(x1, y1, x2, y2, confidence)` in input-size
    pixels. Small or low-rank outputs are skipped, every other output adds
    one detection per row, and the corners are rescaled to the bitmap. */
module ResNet152AndAtssFaceDetector {
  import opened Faults
  import opened Drawing
  import opened Tensors
  import opened DetectionResult
  import opened SkiaSharp
  import opened BaseFaceDetector
  import opened RowBuffer
  import opened OutputLoop

  /** The fields of a row: four corners, then the confidence. */
  const FieldCount: nat := 5

  /** The field read first, and the last one: the confidence. */
  const ConfidenceField: nat := 4

  /** The skip test of the output loop: as the source writes it, on the
      buffer's total size and the rank; or corrected, also on the width of
      a row. */
  datatype Guard = AsWritten | Corrected

  /** An output the loop passes over (`continue`). */
  predicate Skips(g: Guard, output: Tensor)
  {
    output.Size() < FieldCount || output.Rank() < 2 || (g.Corrected? && output.shape[1] < FieldCount)
  }

  /** The detection of one row's fields: class 0, the row's confidence, and
      the box between the truncated rescaled corners; no landmarks. */
  function RowDetection(fields: seq<real>, ratioW: real, ratioH: real): (d: Detection)
    requires |fields| == FieldCount
    ensures d.classId == 0 && d.points.None?
  {
    var box := CornerBox(Trunc(fields[0] * ratioW), Trunc(fields[1] * ratioH),
                         Trunc(fields[2] * ratioW), Trunc(fields[3] * ratioH));
    NewDetection(0, fields[ConfidenceField], box.x as real, box.y as real, box.width as real, box.height as real, None)
  }

  /** The detection of every row, or a placeholder past the end. */
  function RowDecoder(data: seq<real>, boxNum: nat, ratioW: real, ratioH: real): (decode: nat -> Detection)
    ensures forall i: nat :: FieldOffset(boxNum, i, ConfidenceField) < |data| ==>
      decode(i) == RowDetection(RowFields(data, boxNum, i, ConfidenceField), ratioW, ratioH)
  {
    (i: nat) => if FieldOffset(boxNum, i, ConfidenceField) < |data|
                then RowDetection(RowFields(data, boxNum, i, ConfidenceField), ratioW, ratioH)
                else Detection(0, 0.0, 0.0, 0.0, 0.0, 0.0, None)
  }

  /** One output added to the detections so far: a skipped output adds
      nothing; otherwise each of the `Shape[0]` rows adds its detection, and
      a row whose confidence lies past the end of the buffer throws. */
  function DecodeOutput(g: Guard, acc: seq<Detection>, output: Tensor, ratioW: real, ratioH: real)
    : (r: Result<seq<Detection>>)
    ensures Skips(g, output) ==> r == Ok(acc)
    ensures r.Err? ==> r.fault == IndexOutOfRange && !Skips(g, output)
    ensures r.Ok? ==> acc <= r.value
    ensures r.Ok? && !Skips(g, output) ==> |r.value| == |acc| + output.shape[0]
  {
    if Skips(g, output) then Ok(acc)
    else
      var n, boxNum := output.shape[0], output.shape[1];
      if !RowsFit(output.data, boxNum, n, ConfidenceField) then Err(IndexOutOfRange)
      else Ok(acc + Rows(n, RowDecoder(output.data, boxNum, ratioW, ratioH)))
  }

  /** The output loop's body for a guard and a pair of ratios. */
  function StepOf(g: Guard, ratioW: real, ratioH: real): (step: (seq<Detection>, Tensor) -> Result<seq<Detection>>)
  {
    (acc: seq<Detection>, output: Tensor) => DecodeOutput(g, acc, output, ratioW, ratioH)
  }

  /** The output loop of `Detect`, from an empty list. */
  function Decoded(g: Guard, outputs: seq<Tensor>, ratioW: real, ratioH: real): Collected<seq<Detection>>
  {
    Collect(outputs, [], StepOf(g, ratioW, ratioH))
  }

  /** `sizeRatio`: bitmap extent over input extent, per axis. */
  function RatioW(bitmap: Bitmap, d: Detector): real
    requires d.inputSize.width > 0
  {
    bitmap.width as real / d.inputSize.width as real
  }

  function RatioH(bitmap: Bitmap, d: Detector): real
    requires d.inputSize.height > 0
  {
    bitmap.height as real / d.inputSize.height as real
  }

  /** Row `k` of a decoded output is the detection of its own five fields,
      placed after the detections already collected. */
  lemma DecodedRow(g: Guard, acc: seq<Detection>, output: Tensor, ratioW: real, ratioH: real, k: nat)
    requires DecodeOutput(g, acc, output, ratioW, ratioH).Ok? && !Skips(g, output) && k < output.shape[0]
    ensures FieldOffset(output.shape[1], k, ConfidenceField) < |output.data|
    ensures DecodeOutput(g, acc, output, ratioW, ratioH).value[|acc| + k]
         == RowDetection(RowFields(output.data, output.shape[1], k, ConfidenceField), ratioW, ratioH)
  {
    RowsFitEach(output.data, output.shape[1], output.shape[0], ConfidenceField);
  }

  /** The box of a row spans its rescaled corners; the detection has class 0
      and the row's confidence. */
  lemma RowBoxSpansCorners(fields: seq<real>, ratioW: real, ratioH: real)
    requires |fields| == FieldCount
    ensures var d := RowDetection(fields, ratioW, ratioH);
      && d.classId == 0 && d.confidence == fields[ConfidenceField]
      && d.x == Trunc(fields[0] * ratioW) as real
      && d.y == Trunc(fields[1] * ratioH) as real
      && d.x + d.width == Trunc(fields[2] * ratioW) as real
      && d.y + d.height == Trunc(fields[3] * ratioH) as real
  {
  }

  /** Ordered corners and non-negative ratios give a box of non-negative
      size. */
  lemma OrderedCornersGiveNonNegativeSize(fields: seq<real>, ratioW: real, ratioH: real)
    requires |fields| == FieldCount && fields[0] <= fields[2] && fields[1] <= fields[3]
    requires ratioW >= 0.0 && ratioH >= 0.0
    ensures RowDetection(fields, ratioW, ratioH).width >= 0.0 && RowDetection(fields, ratioW, ratioH).height >= 0.0
  {
    ScaleMonotone(fields[0], fields[2], ratioW);
    ScaleMonotone(fields[1], fields[3], ratioH);
    TruncMonotone(fields[0] * ratioW, fields[2] * ratioW);
    TruncMonotone(fields[1] * ratioH, fields[3] * ratioH);
  }

  /** The last row of `n` rows `b >= 5` wide ends before `n * b`. */
  lemma WideRowsFit(n: nat, b: nat, size: nat)
    requires n >= 1 && b >= FieldCount && size >= n * b
    ensures FieldOffset(b, n - 1, ConfidenceField) < size
  {
    assert (n - 1) * b + b == n * b;
  }

  /** With the corrected guard a well-formed output never throws: a row is
      at least five floats wide, and the buffer holds every row. */
  lemma CorrectedGuardNeverFaults(acc: seq<Detection>, output: Tensor, ratioW: real, ratioH: real)
    requires WellFormed(output)
    ensures DecodeOutput(Corrected, acc, output, ratioW, ratioH).Ok?
  {
    if !Skips(Corrected, output) {
      var n, b := output.shape[0], output.shape[1];
      ProductCoversLeadingAxes(output.shape);
      if n >= 1 {
        WideRowsFit(n, b, |output.data|);
      }
    }
  }

  /** The last row of `n` rows at most four wide reaches `n * b` or beyond. */
  lemma NarrowRowsOverrun(n: nat, b: nat)
    requires n >= 1 && b < FieldCount
    ensures FieldOffset(b, n - 1, ConfidenceField) >= n * b
  {
    assert (n - 1) * b + b == n * b;
  }

  /** As written, the guard lets a well-formed rank-2 output with rows
      narrower than five floats through whenever it holds five floats in
      all, and such an output always throws: its last row's confidence lies
      past the end. */
  lemma AsWrittenNarrowRowsFault(acc: seq<Detection>, output: Tensor, ratioW: real, ratioH: real)
    requires WellFormed(output) && |output.shape| == 2 && output.shape[1] < FieldCount && |output.data| >= FieldCount
    ensures DecodeOutput(AsWritten, acc, output, ratioW, ratioH) == Err(IndexOutOfRange)
  {
    var n, b := output.shape[0], output.shape[1];
    ProductOfTwo(output.shape);
    assert |output.data| == n * b;
    NarrowRowsOverrun(n, b);
  }

  /** The smallest output that shows the difference: two rows of four floats
      throw as written, and are passed over when corrected. */
  lemma NarrowOutputExample(output: Tensor, acc: seq<Detection>, ratioW: real, ratioH: real)
    requires output.shape == [2, 4] && |output.data| == 8
    ensures !Skips(AsWritten, output) && Skips(Corrected, output)
    ensures DecodeOutput(AsWritten, acc, output, ratioW, ratioH) == Err(IndexOutOfRange)
    ensures DecodeOutput(Corrected, acc, output, ratioW, ratioH) == Ok(acc)
  {
    assert FieldOffset(4, 1, ConfidenceField) == 8;
  }

  /** Both guards agree on every output whose rows are at least five floats
      wide, and on every output the size-and-rank test already skips. */
  lemma GuardsAgreeOnWideRows(acc: seq<Detection>, output: Tensor, ratioW: real, ratioH: real)
    requires Skips(AsWritten, output) || output.shape[1] >= FieldCount
    ensures DecodeOutput(AsWritten, acc, output, ratioW, ratioH) == DecodeOutput(Corrected, acc, output, ratioW, ratioH)
  {
  }

  /** Outputs that are all passed over add nothing, and each is still
      released. */
  lemma {:induction false} SkippedOutputsAddNothing(g: Guard, outputs: seq<Tensor>, ratioW: real, ratioH: real)
    requires forall k :: 0 <= k < |outputs| ==> Skips(g, outputs[k])
    ensures Decoded(g, outputs, ratioW, ratioH) == Collected(Ok([]), |outputs|)
    decreases |outputs|
  {
    if |outputs| > 0 {
      var n := |outputs| - 1;
      assert forall k :: 0 <= k < n ==> outputs[..n][k] == outputs[k];
      SkippedOutputsAddNothing(g, outputs[..n], ratioW, ratioH);
    }
  }

  /** With the corrected guard, well-formed outputs never throw: the loop
      decodes them all and releases every one. */
  lemma {:induction false} CorrectedLoopCompletes(outputs: seq<Tensor>, ratioW: real, ratioH: real)
    requires forall k :: 0 <= k < |outputs| ==> WellFormed(outputs[k])
    ensures Decoded(Corrected, outputs, ratioW, ratioH).result.Ok?
    ensures Decoded(Corrected, outputs, ratioW, ratioH).released == |outputs|
    decreases |outputs|
  {
    if |outputs| > 0 {
      var n := |outputs| - 1;
      assert forall k :: 0 <= k < n ==> outputs[..n][k] == outputs[k];
      CorrectedLoopCompletes(outputs[..n], ratioW, ratioH);
      var prev := Decoded(Corrected, outputs[..n], ratioW, ratioH);
      CorrectedGuardNeverFaults(prev.result.value, outputs[n], ratioW, ratioH);
    }
  }

  /** Every collected detection has class 0 and no landmarks. */
  predicate Faces(ds: seq<Detection>)
  {
    forall k :: 0 <= k < |ds| ==> ds[k].classId == 0 && ds[k].points.None?
  }

  /** One output keeps the list of faces a list of faces. */
  lemma DecodeOutputFaces(g: Guard, acc: seq<Detection>, output: Tensor, ratioW: real, ratioH: real)
    requires Faces(acc) && DecodeOutput(g, acc, output, ratioW, ratioH).Ok?
    ensures Faces(DecodeOutput(g, acc, output, ratioW, ratioH).value)
  {
    var r := DecodeOutput(g, acc, output, ratioW, ratioH).value;
    if !Skips(g, output) {
      forall k | |acc| <= k < |r|
        ensures r[k].classId == 0 && r[k].points.None?
      {
        DecodedRow(g, acc, output, ratioW, ratioH, k - |acc|);
      }
      assert forall k :: 0 <= k < |acc| ==> r[k] == acc[k];
    }
  }

  /** Everything the loop collects is a face. */
  lemma {:induction false} DecodedFaces(g: Guard, outputs: seq<Tensor>, ratioW: real, ratioH: real)
    ensures Decoded(g, outputs, ratioW, ratioH).result.Ok? ==> Faces(Decoded(g, outputs, ratioW, ratioH).result.value)
    decreases |outputs|
  {
    if |outputs| > 0 {
      var n := |outputs| - 1;
      DecodedFaces(g, outputs[..n], ratioW, ratioH);
      var prev := Decoded(g, outputs[..n], ratioW, ratioH);
      if prev.result.Ok? && DecodeOutput(g, prev.result.value, outputs[n], ratioW, ratioH).Ok? {
        DecodeOutputFaces(g, prev.result.value, outputs[n], ratioW, ratioH);
      }
    }
  }

  /** One output's rows, read by the row loop. */
  method DecodeRows(g: Guard, acc: seq<Detection>, output: Tensor, ratioW: real, ratioH: real)
    returns (r: Result<seq<Detection>>)
    ensures r == DecodeOutput(g, acc, output, ratioW, ratioH)
  {
    if Skips(g, output) {
      return Ok(acc);
    }
    var rows := ReadRows(output.data, output.shape[1], output.shape[0], ConfidenceField,
                         RowDecoder(output.data, output.shape[1], ratioW, ratioH));
    if rows.Err? {
      return Err(rows.fault);
    }
    r := Ok(acc + rows.value);
  }

  /** The loop over the outputs, releasing each one after it is decoded,
      skipped or not. */
  method CollectDetections(g: Guard, outputs: seq<Tensor>, ratioW: real, ratioH: real)
    returns (r: Result<seq<Detection>>, released: seq<nat>)
    ensures r == Decoded(g, outputs, ratioW, ratioH).result
    ensures |released| == Decoded(g, outputs, ratioW, ratioH).released && ReleasedInOrder(released)
  {
    ghost var step := StepOf(g, ratioW, ratioH);
    var results: seq<Detection> := [];
    released := [];
    for k := 0 to |outputs|
      invariant Collect(outputs[..k], [], step) == Collected(Ok(results), k)
      invariant |released| == k && ReleasedInOrder(released)
    {
      CollectSnoc(outputs, [], step, k, results);
      var next := DecodeRows(g, results, outputs[k], ratioW, ratioH);
      released := released + [k];
      if next.Err? {
        CollectAfterFault(outputs, [], step, k + 1);
        return next, released;
      }
      results := next.value;
    }
    assert outputs[..|outputs|] == outputs;
    r := Ok(results);
  }

  /** `Detect`: the shared prologue, then the output loop with the given
      guard and the bitmap-over-input ratios. */
  method Detect(g: Guard, bitmap: Option<Bitmap>, d: Detector, ops: SkiaOps, outputs: seq<Tensor>)
    returns (r: Result<seq<Detection>>, released: seq<nat>, admission: Admission)
    requires d.inputSize.width > 0 && d.inputSize.height > 0
    ensures bitmap.None? || d.request.None? ==> admission == NothingToDetect
    ensures bitmap.Some? && d.request.Some? && Resized(bitmap, d, ops).None? ==> admission == Refuse(TensorConversionFailed)
    ensures admission == Proceed <==> bitmap.Some? && d.request.Some? && Converts(bitmap, d, ops)
    ensures bitmap.Some? && d.request.Some? && !Converts(bitmap, d, ops) ==> admission == Refuse(ConversionFault(bitmap, d, ops))
    ensures admission == NothingToDetect ==> r == Ok([]) && released == []
    ensures admission.Refuse? ==> r == Err(admission.fault) && released == []
    ensures admission == Proceed ==>
      bitmap.Some? && d.request.Some? && Resized(bitmap, d, ops).Some?
      && var c := Decoded(g, outputs, RatioW(bitmap.value, d), RatioH(bitmap.value, d));
      r == c.result && |released| == c.released
    ensures ReleasedInOrder(released) && |released| <= |outputs|
    ensures r.Ok? ==> Faces(r.value)
    ensures g == Corrected && admission == Proceed && (forall k :: 0 <= k < |outputs| ==> WellFormed(outputs[k])) ==>
      r.Ok? && |released| == |outputs|
  {
    admission := PrepareInput(bitmap, d, ops);
    released := [];
    match admission
    case NothingToDetect =>
      return Ok([]), released, admission;
    case Refuse(f) =>
      return Err(f), released, admission;
    case Proceed =>
      var ratioW, ratioH := RatioW(bitmap.value, d), RatioH(bitmap.value, d);
      r, released := CollectDetections(g, outputs, ratioW, ratioH);
      DecodedFaces(g, outputs, ratioW, ratioH);
      if g == Corrected && forall k :: 0 <= k < |outputs| ==> WellFormed(outputs[k]) {
        CorrectedLoopCompletes(outputs, ratioW, ratioH);
      }
  }

  /** A 600 x 300 bitmap on a 300 x 300 input doubles x and keeps y: the row
      `(10, 10, 20, 20, 0.8)` becomes the box `(20, 10, 20, 10)`. */
  lemma RescaledRow(ratioW: real, ratioH: real)
    requires ratioW == 2.0 && ratioH == 1.0
    ensures RowDetection([10.0, 10.0, 20.0, 20.0, 0.8], ratioW, ratioH) == Detection(0, 0.8, 20.0, 10.0, 20.0, 10.0, None)
  {
    assert Trunc(20.0) == 20 by { TruncOfInt(20); }
    assert Trunc(10.0) == 10 by { TruncOfInt(10); }
    assert Trunc(40.0) == 40 by { TruncOfInt(40); }
  }

  /** The ratios of a 600 x 300 bitmap on a 300 x 300 input. */
  lemma DoubleWidthRatios(bitmap: Bitmap, d: Detector)
    requires bitmap.width == 600 && bitmap.height == 300 && d.inputSize == Size(300, 300)
    ensures RatioW(bitmap, d) == 2.0 && RatioH(bitmap, d) == 1.0
  {
  }

  /** The loop over a single output is that output's decoding. */
  lemma SingleOutputLoop(g: Guard, output: Tensor, ratioW: real, ratioH: real)
    ensures Decoded(g, [output], ratioW, ratioH) == Collected(DecodeOutput(g, [], output, ratioW, ratioH), 1)
  {
    var step := StepOf(g, ratioW, ratioH);
    assert [output][..0] == [];
    assert Collect([output][..0], [], step) == Collected(Ok([]), 0);
    assert step([], output) == DecodeOutput(g, [], output, ratioW, ratioH);
  }

  /** An output of one row that fits decodes to that row's detection. */
  lemma SingleRowDecodes(g: Guard, output: Tensor, ratioW: real, ratioH: real)
    requires !Skips(g, output) && output.shape[0] == 1 && FieldOffset(output.shape[1], 0, ConfidenceField) < |output.data|
    ensures DecodeOutput(g, [], output, ratioW, ratioH)
         == Ok([RowDetection(RowFields(output.data, output.shape[1], 0, ConfidenceField), ratioW, ratioH)])
  {
    var r := DecodeOutput(g, [], output, ratioW, ratioH);
    assert r.Ok? && |r.value| == 1;
    DecodedRow(g, [], output, ratioW, ratioH, 0);
    assert r.value == [r.value[0]];
  }

  /** One `[1, 5]` output holding `(10, 10, 20, 20, 0.8)` on that bitmap
      decodes to the single detection `(20, 10, 20, 10)` with confidence
      0.8, and is released. */
  lemma SingleRowOutput(output: Tensor, bitmap: Bitmap, d: Detector)
    requires output.data == [10.0, 10.0, 20.0, 20.0, 0.8] && output.shape == [1, 5]
    requires bitmap.width == 600 && bitmap.height == 300 && d.inputSize == Size(300, 300)
    ensures Decoded(Corrected, [output], RatioW(bitmap, d), RatioH(bitmap, d))
         == Collected(Ok([Detection(0, 0.8, 20.0, 10.0, 20.0, 10.0, None)]), 1)
  {
    DoubleWidthRatios(bitmap, d);
    var ratioW, ratioH := RatioW(bitmap, d), RatioH(bitmap, d);
    assert RowFields(output.data, 5, 0, ConfidenceField) == output.data;
    SingleOutputLoop(Corrected, output, ratioW, ratioH);
    SingleRowDecodes(Corrected, output, ratioW, ratioH);
    RescaledRow(ratioW, ratioH);
  }
}
