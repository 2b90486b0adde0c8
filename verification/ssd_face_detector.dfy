/** `MobileNetv2AndSSDFaceDetector`: an SSD head whose single output is a
    `[1, 1, N, 7]` tensor of fixed-width slots
    `(image_id, label, conf, x_min, y_min, x_max, y_max)` with corners
    normalised to the bitmap. Every slot becomes one detection; nothing is
    filtered here. */
module MobileNetv2AndSsdFaceDetector {
  import opened Faults
  import opened Drawing
  import opened Tensors
  import opened DetectionResult
  import opened SkiaSharp
  import opened BaseFaceDetector
  import opened RowBuffer

  /** The last field a slot reads: `y_max`. */
  const LastField: nat := 6

  /** The detection of one slot's fields: `(int)label`, `conf`, and the box
      whose corners are the normalised corners scaled by the bitmap's width
      and height and truncated; no landmarks. */
  function SlotDetection(fields: seq<real>, w: int, h: int): (d: Detection)
    requires |fields| == LastField + 1
    ensures d.points.None?
  {
    var box := CornerBox(Trunc(fields[3] * w as real), Trunc(fields[4] * h as real),
                         Trunc(fields[5] * w as real), Trunc(fields[6] * h as real));
    NewDetection(Trunc(fields[1]), fields[2], box.x as real, box.y as real, box.width as real, box.height as real, None)
  }

  /** The detection of every slot, or a placeholder past the end. */
  function SlotDecoder(data: seq<real>, boxNum: nat, w: int, h: int): (decode: nat -> Detection)
    ensures forall i: nat :: FieldOffset(boxNum, i, LastField) < |data| ==>
      decode(i) == SlotDetection(RowFields(data, boxNum, i, LastField), w, h)
  {
    (i: nat) => if FieldOffset(boxNum, i, LastField) < |data| then SlotDetection(RowFields(data, boxNum, i, LastField), w, h)
                else Detection(0, 0.0, 0.0, 0.0, 0.0, 0.0, None)
  }

  /** The decoded output on a `w x h` bitmap: reading `Shape[3]` of a tensor
      of rank below 4 throws, and so does any slot read past the end;
      otherwise one detection per slot, in slot order. */
  function DecodeSsd(output: Tensor, w: int, h: int): (r: Result<seq<Detection>>)
    ensures |output.shape| < 4 ==> r == Err(IndexOutOfRange)
    ensures r.Err? ==> r.fault == IndexOutOfRange
    ensures r.Ok? ==> |output.shape| >= 4 && |r.value| == output.shape[2]
  {
    if |output.shape| < 4 then Err(IndexOutOfRange)
    else
      var n, boxNum := output.shape[2], output.shape[3];
      if !RowsFit(output.data, boxNum, n, LastField) then Err(IndexOutOfRange)
      else
        Ok(Rows(n, SlotDecoder(output.data, boxNum, w, h)))
  }

  /** An output of rank at least 4 whose last slot fits decodes. */
  lemma FittingOutputDecodes(output: Tensor, w: int, h: int)
    requires |output.shape| >= 4 && RowsFit(output.data, output.shape[3], output.shape[2], LastField)
    ensures DecodeSsd(output, w, h).Ok?
  {
  }

  /** Slot `k` of a decoded output is the detection of its own seven fields. */
  lemma DecodedSlot(output: Tensor, w: int, h: int, k: nat)
    requires DecodeSsd(output, w, h).Ok? && k < output.shape[2]
    ensures FieldOffset(output.shape[3], k, LastField) < |output.data|
    ensures DecodeSsd(output, w, h).value[k] == SlotDetection(RowFields(output.data, output.shape[3], k, LastField), w, h)
  {
    RowsFitEach(output.data, output.shape[3], output.shape[2], LastField);
  }

  /** `Detect`'s decoding of its output on a `w x h` bitmap. */
  method DecodeOutput(output: Tensor, w: int, h: int) returns (r: Result<seq<Detection>>)
    ensures r == DecodeSsd(output, w, h)
  {
    if |output.shape| < 4 {
      return Err(IndexOutOfRange);
    }
    r := ReadRows(output.data, output.shape[3], output.shape[2], LastField, SlotDecoder(output.data, output.shape[3], w, h));
  }

  /** A well-formed `[1, 1, N, 7]` output always decodes, to `N` detections. */
  lemma WellFormedOutputDecodes(output: Tensor, w: int, h: int)
    requires WellFormed(output) && |output.shape| == 4
    requires output.shape[0] == 1 && output.shape[1] == 1 && output.shape[3] == 7
    ensures DecodeSsd(output, w, h).Ok? && |DecodeSsd(output, w, h).value| == output.shape[2]
  {
    var n := output.shape[2];
    ProductOfFour(output.shape);
    if n > 0 {
      assert FieldOffset(7, n - 1, LastField) == 7 * n - 1;
    }
  }

  /** Slot `i`'s detection depends only on the seven floats starting at
      `i * Shape[3]`. */
  lemma SlotReadsOwnFields(a: Tensor, b: Tensor, w: int, h: int, i: nat)
    requires a.shape == b.shape && DecodeSsd(a, w, h).Ok? && DecodeSsd(b, w, h).Ok? && i < a.shape[2]
    requires FieldOffset(a.shape[3], i, LastField) < |a.data| && FieldOffset(a.shape[3], i, LastField) < |b.data|
    requires RowFields(a.data, a.shape[3], i, LastField) == RowFields(b.data, a.shape[3], i, LastField)
    ensures DecodeSsd(a, w, h).value[i] == DecodeSsd(b, w, h).value[i]
  {
    DecodedSlot(a, w, h, i);
    DecodedSlot(b, w, h, i);
  }

  /** The box of a slot spans its scaled corners and keeps the slot's label
      and confidence. */
  lemma SlotBoxSpansCorners(fields: seq<real>, w: int, h: int)
    requires |fields| == LastField + 1
    ensures var d := SlotDetection(fields, w, h);
      && d.classId == Trunc(fields[1]) && d.confidence == fields[2]
      && d.x == Trunc(fields[3] * w as real) as real
      && d.y == Trunc(fields[4] * h as real) as real
      && d.x + d.width == Trunc(fields[5] * w as real) as real
      && d.y + d.height == Trunc(fields[6] * h as real) as real
  {
  }

  /** Ordered corners on a bitmap of non-negative size give a box of
      non-negative size. */
  lemma OrderedCornersGiveNonNegativeSize(fields: seq<real>, w: nat, h: nat)
    requires |fields| == LastField + 1 && fields[3] <= fields[5] && fields[4] <= fields[6]
    ensures SlotDetection(fields, w, h).width >= 0.0 && SlotDetection(fields, w, h).height >= 0.0
  {
    ScaleMonotone(fields[3], fields[5], w as real);
    ScaleMonotone(fields[4], fields[6], h as real);
    TruncMonotone(fields[3] * w as real, fields[5] * w as real);
    TruncMonotone(fields[4] * h as real, fields[6] * h as real);
  }

  /** A corner normalised to `[0, 1]` lands inside `[0, size]`. */
  lemma NormalisedCornerInside(v: real, size: nat)
    requires 0.0 <= v <= 1.0
    ensures 0 <= Trunc(v * size as real) <= size
  {
    ScaleMonotone(0.0, v, size as real);
    ScaleMonotone(v, 1.0, size as real);
    TruncMonotone(0.0, v * size as real);
    TruncMonotone(v * size as real, size as real);
    TruncOfInt(size);
    TruncOfInt(0);
  }

  /** The slot `(0, 0, 0.9, 0.1, 0.1, 0.5, 0.5)` on a 100 x 100 bitmap is
      the box `(10, 10, 40, 40)` with confidence 0.9. */
  lemma CentredSlot(w: int, h: int)
    requires w == 100 && h == 100
    ensures SlotDetection([0.0, 0.0, 0.9, 0.1, 0.1, 0.5, 0.5], w, h) == Detection(0, 0.9, 10.0, 10.0, 40.0, 40.0, None)
  {
    assert Trunc(0.1 * 100.0) == 10 by { TruncOfInt(10); }
    assert Trunc(0.5 * 100.0) == 50 by { TruncOfInt(50); }
    assert Trunc(0.0) == 0 by { TruncOfInt(0); }
  }

  /** An all-zero slot is still a detection: class 0, confidence 0, an empty
      box at the origin. */
  lemma ZeroSlot(w: int, h: int)
    ensures SlotDetection([0.0, 0.0, 0.0, 0.0, 0.0, 0.0, 0.0], w, h) == Detection(0, 0.0, 0.0, 0.0, 0.0, 0.0, None)
  {
    assert Trunc(0.0) == 0 by { TruncOfInt(0); }
    assert 0.0 * w as real == 0.0 && 0.0 * h as real == 0.0;
  }

  /** The fourteen values of a `[1, 1, 2, 7]` output hold two slots: a face
      at `(0.1, 0.1)-(0.5, 0.5)` with confidence 0.9, then all zeros. */
  lemma TwoSlotFields(data: seq<real>)
    requires data == [0.0, 0.0, 0.9, 0.1, 0.1, 0.5, 0.5, 0.0, 0.0, 0.0, 0.0, 0.0, 0.0, 0.0]
    ensures RowsFit(data, 7, 2, LastField)
    ensures RowFields(data, 7, 0, LastField) == [0.0, 0.0, 0.9, 0.1, 0.1, 0.5, 0.5]
    ensures RowFields(data, 7, 1, LastField) == [0.0, 0.0, 0.0, 0.0, 0.0, 0.0, 0.0]
  {
  }

  /** An output with two slots that fit decodes to their two detections. */
  lemma TwoSlotsDecode(output: Tensor, w: int, h: int)
    requires |output.shape| >= 4 && output.shape[2] == 2 && RowsFit(output.data, output.shape[3], 2, LastField)
    ensures FieldOffset(output.shape[3], 1, LastField) < |output.data|
    ensures DecodeSsd(output, w, h).Ok?
    ensures DecodeSsd(output, w, h).value == [SlotDetection(RowFields(output.data, output.shape[3], 0, LastField), w, h),
                                              SlotDetection(RowFields(output.data, output.shape[3], 1, LastField), w, h)]
  {
  }

  /** A `[1, 1, 2, 7]` output on a 100 x 100 bitmap whose first slot is
      `(0, 0, 0.9, 0.1, 0.1, 0.5, 0.5)` and whose second slot is all zeros
      gives two detections: nothing is filtered, not even the empty one. */
  lemma TwoSlotOutput(output: Tensor, w: int, h: int)
    requires output.data == [0.0, 0.0, 0.9, 0.1, 0.1, 0.5, 0.5, 0.0, 0.0, 0.0, 0.0, 0.0, 0.0, 0.0]
    requires output.shape == [1, 1, 2, 7]
    requires w == 100 && h == 100
    ensures DecodeSsd(output, w, h).Ok?
    ensures DecodeSsd(output, w, h).value == [Detection(0, 0.9, 10.0, 10.0, 40.0, 40.0, None), Detection(0, 0.0, 0.0, 0.0, 0.0, 0.0, None)]
  {
    TwoSlotFields(output.data);
    TwoSlotsDecode(output, w, h);
    CentredSlot(w, h);
    ZeroSlot(w, h);
  }

  /** `Detect`: the shared prologue, then one inference whose single output
      (`outputs`, produced by foreign code) is decoded and released once. */
  method Detect(bitmap: Option<Bitmap>, d: Detector, ops: SkiaOps, output: Tensor)
    returns (r: Result<seq<Detection>>, released: nat)
    ensures bitmap.None? || d.request.None? ==> r == Ok([]) && released == 0
    ensures bitmap.Some? && d.request.Some? && Resized(bitmap, d, ops).None? ==>
      r == Err(TensorConversionFailed) && released == 0
    ensures released <= 1
    ensures released == 1 ==> bitmap.Some? && r == DecodeSsd(output, bitmap.value.width, bitmap.value.height)
    ensures released == 0 ==> r.Err? || r == Ok([])
    ensures released == 1 <==> bitmap.Some? && d.request.Some? && Converts(bitmap, d, ops)
    ensures bitmap.Some? && d.request.Some? && !Converts(bitmap, d, ops) ==>
      r == Err(ConversionFault(bitmap, d, ops)) && released == 0
  {
    var admission := PrepareInput(bitmap, d, ops);
    match admission
    case NothingToDetect =>
      return Ok([]), 0;
    case Refuse(f) =>
      return Err(f), 0;
    case Proceed =>
      r := DecodeOutput(output, bitmap.value.width, bitmap.value.height);
      released := 1;
  }
}
