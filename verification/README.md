# OpenVINO face detectors in Dafny

This project models the face-detection core of OpenVINOFaceDetectApp. The app runs three
OpenVINO face detectors over SkiaSharp bitmaps and turns what the networks output into
`DetectionResult` records.

What is modelled:

- **BaseFaceDetector**:
  - the constructor's guards on the model path and the device value;
  - `Init`, with device selection, creation of the inference request and the input size read from the input shape;
  - `ToTensor`, `Dispose`, and the `DeviceType` to device-string mapping.
- **SkiaSharpImageConvert**:
  - the BGRA/RGBA byte converters, which strip the alpha channel;
  - the BGR float converter, which scales each channel to `[0, 1]`;
  - the color-type conversions those converters start with.
- **Yolov8nFaceDetector**:
  - its own `Init` and `ToTensor`;
  - `GenerateProposal`: the DFL box decoding, the sigmoid confidence, clamping to the bitmap, and the five landmarks;
  - `SigmoidX` and `Softmax`;
  - greedy `NMSBoxes` and `CalculateOverlap`;
  - `Detect`, which loops over the outputs (each released in a `finally`), runs NMS and builds the results.
- **MobileNetv2AndSSDFaceDetector**: `Detect` over one `[1, 1, N, 7]` output. Each slot becomes one detection.
- **ResNet152AndATSSFaceDetector**: `Detect` over every output. Small or low-rank outputs are skipped. Each row of five floats becomes one detection, rescaled to the bitmap. Every output the loop reaches is released.
- **DetectionResult**: the constructor.

Floats are `real`. The C# `(int)` cast is `Drawing.Trunc`, which truncates toward zero.

An exception is a `Faults.Result` error. The model keeps the kinds apart:

- reading outside a span or a shape is `IndexOutOfRange`;
- a bad `Slice` is `SliceOutOfRange`;
- the `new Exception(...)` messages of `Init` and the converters each have their own `Fault`.

Code outside the repository is a parameter:

- OpenVINO: the available devices, the request's input shape, and the output tensors of a run;
- SkiaSharp: `CanCopyTo`/`CopyTo`/`Resize` and the pixels of a bitmap;
- `File.Exists`;
- `Math.Exp`.

Modules, one per file:

- `Faults`, `Drawing` (`Rectangle`, `Point`, `Size`, truncation), `Tensors` and `SkiaSharp` are the data model.
- `DetectionResult`, `SkiaSharpImageConvert` and `BaseFaceDetector` follow the source files of the same names.
- `Nms` models `NMSBoxes` and `CalculateOverlap`.
- `OutputLoop` is the `try`/`finally` loop over outputs that two detectors share.
- `RowBuffer` reads fixed-width rows out of a flat float buffer, which the SSD and ATSS decoders share.
- `Yolov8nFaceDetector`, `MobileNetv2AndSsdFaceDetector` and `ResNet152AndAtssFaceDetector` model the three detectors.

Places where the code's behaviour is easy to misread. The model follows the code in each:

- `CalculateOverlap` counts the intersection inclusively (`x2 - x1 + 1`) but the areas as `Width * Height`.
  - Two 10 x 10 boxes offset by one pixel therefore overlap at exactly 1 and suppress each other (`Nms.ShiftedBoxesOverlapFully`).
  - A box overlaps itself at more than 1 (`Nms.SelfOverlapExceedsOne`).
  - Two coincident zero-size boxes overlap at -1, not 0 (`Nms.CoincidentPointsOverlapNegatively`).
- The SSD detector filters nothing. An all-zero slot still becomes a detection (`MobileNetv2AndSsdFaceDetector.TwoSlotOutput`).
- The Yolo detector keeps a cell when its sigmoid confidence is strictly greater than 0.5, and NMS keeps scores strictly greater than 0.5.
- The Yolo `Init` uses `Shape[1]` for both the input width and the input height.

## Model

| member | source | states |
|---|---|---|
| Drawing.Trunc | src/OpenVINOFaceDetectApp/FaceDetector/Yolov8nFaceDetector.cs:174 | The C# `(int)` cast rounds toward zero. A non-negative value gives the largest integer not above it. A negative value gives the smallest integer not below it. |
| Drawing.TruncMonotone | src/OpenVINOFaceDetectApp/FaceDetector/MobileNetv2AndSSDFaceDetector.cs:49-52 | Truncating two ordered corners never reverses their order. |
| Drawing.CornerBox | src/OpenVINOFaceDetectApp/FaceDetector/MobileNetv2AndSSDFaceDetector.cs:53 | The box `(x1, y1, x2 - x1, y2 - y1)` has left/top edges `x1`, `y1` and right/bottom edges `x2`, `y2`. |
| DetectionResult.NewDetection | src/OpenVINOFaceDetectApp/FaceDetector/Models/DetectionResult.cs:26-38 | The class, confidence, position and size are stored unchanged. `Points` is set exactly when a non-empty list is supplied, and then it is that list. |
| DetectionResult.PointsRoundTrip | src/OpenVINOFaceDetectApp/FaceDetector/Models/DetectionResult.cs:24-37 | Enumerating the stored points gives the supplied points back. A null or empty list reads as no points either way. |
| BaseFaceDetector.DeviceFromCode | src/OpenVINOFaceDetectApp/FaceDetector/BaseFaceDetector.cs:30-33 | `Enum.IsDefined`: an integer is a device exactly when it lies in 0..5, and that device's value is the integer. |
| BaseFaceDetector.DeviceCodeRoundTrip | src/OpenVINOFaceDetectApp/FaceDetector/Models/DeviceType.cs:10-29 | Every device's enum value maps back to that device. |
| BaseFaceDetector.GetDeviceName | src/OpenVINOFaceDetectApp/FaceDetector/BaseFaceDetector.cs:101-113 | The `Description` string of each device (`CPU`, `GPU`, `GPU.0`, `GPU.1`, `GPU.2`, `NPU`). Every device has one, so the `ToString` fallback is never reached. `DeviceNameRoundTrip` and `DeviceNameInjective` show the mapping is one-to-one. |
| BaseFaceDetector.DeviceFromName | src/OpenVINOFaceDetectApp/FaceDetector/BaseFaceDetector.cs:101-113 | Inverse of `GetDeviceName`: a string that is recognised is the device string of the device returned. |
| BaseFaceDetector.DeviceNameRoundTrip | src/OpenVINOFaceDetectApp/FaceDetector/Models/DeviceType.cs:12-28 | Each device's `Description` string maps back to that device. |
| BaseFaceDetector.DeviceNameInjective | src/OpenVINOFaceDetectApp/FaceDetector/Models/DeviceType.cs:12-28 | No two devices share a device string. |
| BaseFaceDetector.InputSizeFromShape | src/OpenVINOFaceDetectApp/FaceDetector/BaseFaceDetector.cs:81-89 | NHWC gives `(Shape[2], Shape[1])` and needs rank 3. NCHW gives `(Shape[3], Shape[2])` and needs rank 4. A shorter shape throws an index error. |
| BaseFaceDetector.SelectDevice | src/OpenVINOFaceDetectApp/FaceDetector/BaseFaceDetector.cs:54-63 | Succeeds, with the device string, exactly when the device list is non-null, non-empty and contains it. A null or empty list fails with "no available devices". Otherwise it fails with "not available". |
| BaseFaceDetector.Init | src/OpenVINOFaceDetectApp/FaceDetector/BaseFaceDetector.cs:52-91 | A device-selection failure propagates unchanged. A null request fails. Otherwise the new request (live, never released) is returned with the NHWC input size `(Shape[2], Shape[1])`, and a shape of rank below 3 throws. |
| BaseFaceDetector.Construct | src/OpenVINOFaceDetectApp/FaceDetector/BaseFaceDetector.cs:24-38 | The path is checked first (null, empty or missing fails with "file not found"), then the device value, then `Init`. It succeeds exactly when all three pass, and the fields are `Init`'s request and size and the path. A failing `Init` propagates its own fault unchanged. |
| BaseFaceDetector.Dispose | src/OpenVINOFaceDetectApp/FaceDetector/BaseFaceDetector.cs:93-99 | A live request is released once more and is not live afterwards. Nothing else changes. A null or already disposed request is left as it is. |
| BaseFaceDetector.DisposeReleasesOnce | src/OpenVINOFaceDetectApp/FaceDetector/BaseFaceDetector.cs:93-99 | Any number (at least one) of `Dispose` calls equals one call, so a live request is released exactly once. |
| BaseFaceDetector.ToTensor | src/OpenVINOFaceDetectApp/FaceDetector/BaseFaceDetector.cs:42-50 | A null bitmap or a failed resize gives no tensor. When the resized bitmap copies to BGRA with whole pixels, the tensor is those bytes with alpha stripped. Otherwise the converter's exception propagates. |
| BaseFaceDetector.Admit | src/OpenVINOFaceDetectApp/FaceDetector/MobileNetv2AndSSDFaceDetector.cs:27-36 | The shared start of `Detect`. A null bitmap or request returns an empty list. A null tensor throws, and so does a failed conversion. It proceeds exactly when all three are present. |
| BaseFaceDetector.PrepareInput | src/OpenVINOFaceDetectApp/FaceDetector/ResNet152AndATSSFaceDetector.cs:29-38 | That start with the base `ToTensor`. A failed resize throws "can not convert". Detection proceeds exactly when there is a bitmap, a request and a resized image that converts. Any other conversion failure throws the converter's exception. |
| SkiaSharpImageConvert.WriteSlot | src/OpenVINOFaceDetectApp/FaceDetector/Utils/SkiaSharpImageConvert.cs:158-164 | The non-alpha byte `i` is written to the output slot `j` whose source is `4 * (j / 3) + j % 3 = i`. |
| SkiaSharpImageConvert.WriteInBounds | src/OpenVINOFaceDetectApp/FaceDetector/Utils/SkiaSharpImageConvert.cs:156-163 | When the length is a multiple of 4, every write lands inside the `len / 4 * 3` output. |
| SkiaSharpImageConvert.ConvertToByte | src/OpenVINOFaceDetectApp/FaceDetector/Utils/SkiaSharpImageConvert.cs:149-166 | Null or empty data throws. A length that is not a multiple of 4 throws an index error. Otherwise the output holds 3 of every 4 bytes in order, `out[k] = in[4 * (k / 3) + k % 3]`, which is the alpha-stripped buffer. |
| SkiaSharpImageConvert.ChannelValue | src/OpenVINOFaceDetectApp/FaceDetector/Utils/SkiaSharpImageConvert.cs:178-180 | A channel divided by 255 lies in `[0, 1]`. |
| SkiaSharpImageConvert.FloatSlot | src/OpenVINOFaceDetectApp/FaceDetector/Utils/SkiaSharpImageConvert.cs:173-188 | The slot `3 * (y * W + x) + c` lies inside the buffer and decodes back to pixel `(x, y)` and channel `c`, so no two writes collide. |
| SkiaSharpImageConvert.FloatLayout | src/OpenVINOFaceDetectApp/FaceDetector/Utils/SkiaSharpImageConvert.cs:173-188 | A buffer filled slot by slot holds, at `3 * (y * W + x) + c`, channel `c` of pixel `(x, y)`. |
| SkiaSharpImageConvert.ConvertToFloatArray | src/OpenVINOFaceDetectApp/FaceDetector/Utils/SkiaSharpImageConvert.cs:168-191 | `W * H * 3` floats in row-major order, with blue, green and red of each pixel divided by 255, all in `[0, 1]`. |
| SkiaSharpImageConvert.InColorType | src/OpenVINOFaceDetectApp/FaceDetector/Utils/SkiaSharpImageConvert.cs:106-140 | A bitmap already in the target type is returned as it is, because the callers test `ColorType` first. Otherwise the conversion succeeds exactly when `CanCopyTo` allows it. Failure is the copy exception. |
| SkiaSharpImageConvert.ToByteArray | src/OpenVINOFaceDetectApp/FaceDetector/Utils/SkiaSharpImageConvert.cs:20-42 | A null source throws. The result has 3 channels and the size of the converted bitmap. Its data is the converted bytes with alpha stripped, exactly when those bytes are whole pixels. Otherwise it throws `BitmapDataNull` for missing or empty bytes and `IndexOutOfRange` for a partial pixel. A failed color copy propagates. |
| SkiaSharpImageConvert.To24BGRByteArray | src/OpenVINOFaceDetectApp/FaceDetector/Utils/SkiaSharpImageConvert.cs:20-42 | A null source throws, and so does a failed copy to Bgra8888. The call succeeds exactly when the BGRA bytes are whole pixels. The data is then those bytes with alpha stripped, in 3 channels, at the converted bitmap's width and height. Otherwise the byte fault is thrown. |
| SkiaSharpImageConvert.To24RGBByteArray | src/OpenVINOFaceDetectApp/FaceDetector/Utils/SkiaSharpImageConvert.cs:76-98 | A null source throws, and so does a failed copy to Rgba8888. The call succeeds exactly when the RGBA bytes are whole pixels. The data is then those bytes with alpha stripped, in 3 channels, at the converted bitmap's width and height. Otherwise the byte fault is thrown. |
| SkiaSharpImageConvert.To24BGRFloatArray | src/OpenVINOFaceDetectApp/FaceDetector/Utils/SkiaSharpImageConvert.cs:44-66 | A null source throws, and so does a failed copy to Bgra8888. Any source that is Bgra8888 or that `CanCopyTo` allows converts. The result then has the converted bitmap's width and height and `W * H * 3` floats in 3 channels; slot `3 * (y * W + x) + c` holds channel `c` (blue, green, red) of pixel `(x, y)` over 255. |
| Nms.CommonSpanCountsSharedPixels | src/OpenVINOFaceDetectApp/FaceDetector/Yolov8nFaceDetector.cs:293 | `max(0, x2 - x1 + 1)` is the number of integer positions that two closed edge ranges share. |
| Nms.Exceeds | src/OpenVINOFaceDetectApp/FaceDetector/Yolov8nFaceDetector.cs:255-256 | `overlap > nmsThreshold` on the float quotient. A non-zero denominator compares the quotient. A zero denominator gives +Infinity, which exceeds every threshold, when the numerator is positive, and NaN, which exceeds nothing, when it is zero (`PointInsideBoxOverlapsInfinitely`, `SeparatedPointsOverlapNaN`). |
| Nms.CalculateOverlap | src/OpenVINOFaceDetectApp/FaceDetector/Yolov8nFaceDetector.cs:286-299 | The numerator is never negative, and the denominator is the two areas minus it. The numerator is positive exactly when the closed edge ranges meet on both axes. |
| Nms.OverlapSymmetric | src/OpenVINOFaceDetectApp/FaceDetector/Yolov8nFaceDetector.cs:288-297 | The overlap of `a` with `b` equals the overlap of `b` with `a`. |
| Nms.OverlapOfIdenticalBoxes | src/OpenVINOFaceDetectApp/FaceDetector/Yolov8nFaceDetector.cs:293-297 | A box's overlap with itself is `(w + 1)(h + 1) / (2wh - (w + 1)(h + 1))`, not 1. |
| Nms.SelfOverlapExceedsOne | src/OpenVINOFaceDetectApp/FaceDetector/Yolov8nFaceDetector.cs:293-297 | A 10 x 10 box overlaps itself at 121/79, which is above 1. |
| Nms.CoincidentPointsOverlapNegatively | src/OpenVINOFaceDetectApp/FaceDetector/Yolov8nFaceDetector.cs:293-297 | Two identical zero-size boxes overlap at 1/-1. That never exceeds a threshold of -1 or more, so neither suppresses the other. |
| Nms.PointInsideBoxOverlapsInfinitely | src/OpenVINOFaceDetectApp/FaceDetector/Yolov8nFaceDetector.cs:297 | A 1 x 1 box against a point at its corner gives 1/0, which is positive infinity in float arithmetic and exceeds every threshold. |
| Nms.SeparatedPointsOverlapNaN | src/OpenVINOFaceDetectApp/FaceDetector/Yolov8nFaceDetector.cs:297 | Two separate points give 0/0, which is NaN in float arithmetic and exceeds no threshold. |
| Nms.AboveThreshold | src/OpenVINOFaceDetectApp/FaceDetector/Yolov8nFaceDetector.cs:233-240 | The candidates are exactly the indices whose score is strictly above the threshold, in increasing order. |
| Nms.FilterByScore | src/OpenVINOFaceDetectApp/FaceDetector/Yolov8nFaceDetector.cs:233-240 | The filtering loop computes exactly those candidates. |
| Nms.Insert | src/OpenVINOFaceDetectApp/FaceDetector/Yolov8nFaceDetector.cs:243 | One insertion step of the descending sort adds exactly the new index. |
| Nms.InsertKeepsScoreOrder | src/OpenVINOFaceDetectApp/FaceDetector/Yolov8nFaceDetector.cs:243 | Inserting into a list ordered by descending score keeps it ordered. |
| Nms.InsertKeepsDistinct | src/OpenVINOFaceDetectApp/FaceDetector/Yolov8nFaceDetector.cs:243 | Inserting a new index keeps the list free of duplicates. |
| Nms.SortByScore | src/OpenVINOFaceDetectApp/FaceDetector/Yolov8nFaceDetector.cs:243 | The sort is a permutation of the candidates (same multiset), keeps them distinct, and orders them by non-increasing score. |
| Nms.Survivors | src/OpenVINOFaceDetectApp/FaceDetector/Yolov8nFaceDetector.cs:253-264 | Removing suppressed candidates never adds any. |
| Nms.SurvivorsMembers | src/OpenVINOFaceDetectApp/FaceDetector/Yolov8nFaceDetector.cs:253-264 | After the inner loop, the remaining candidates are exactly those that the current box does not suppress. |
| Nms.SurvivorsKeepOrder | src/OpenVINOFaceDetectApp/FaceDetector/Yolov8nFaceDetector.cs:253-264 | Removing candidates keeps the rest distinct and in score order. |
| Nms.RemoveSuppressed | src/OpenVINOFaceDetectApp/FaceDetector/Yolov8nFaceDetector.cs:253-264 | The in-place `RemoveAt` loop, which advances `i` only when it keeps a candidate, leaves exactly the survivors. |
| Nms.Greedy | src/OpenVINOFaceDetectApp/FaceDetector/Yolov8nFaceDetector.cs:247-265 | The selection is never longer than the ordered candidates. |
| Nms.GreedyMembers | src/OpenVINOFaceDetectApp/FaceDetector/Yolov8nFaceDetector.cs:247-265 | Every selected index is a candidate. |
| Nms.GreedyKeepsOrder | src/OpenVINOFaceDetectApp/FaceDetector/Yolov8nFaceDetector.cs:247-265 | The selection keeps the candidates' distinctness and score order. |
| Nms.GreedyNoSuppressedPair | src/OpenVINOFaceDetectApp/FaceDetector/Yolov8nFaceDetector.cs:247-265 | No selected box is suppressed by a box selected before it. |
| Nms.GreedyComplete | src/OpenVINOFaceDetectApp/FaceDetector/Yolov8nFaceDetector.cs:247-265 | Every candidate left out is suppressed by a selected box of at least its score. |
| Nms.Suppress | src/OpenVINOFaceDetectApp/FaceDetector/Yolov8nFaceDetector.cs:247-265 | The outer `while` loop computes the greedy selection. |
| Nms.KeepTopK | src/OpenVINOFaceDetectApp/FaceDetector/Yolov8nFaceDetector.cs:268-271 | The result is a prefix of the selection. It is all of it when `topK <= 0` or when the selection is short enough. Otherwise it is exactly `topK` long. |
| Nms.PrefixKeeps | src/OpenVINOFaceDetectApp/FaceDetector/Yolov8nFaceDetector.cs:268-271 | Cutting the selection to a prefix keeps its range, distinctness, score order and the absence of suppressed pairs. |
| Nms.AcceptedSelection | src/OpenVINOFaceDetectApp/FaceDetector/Yolov8nFaceDetector.cs:243-271 | For every descending order of the candidates (the sort is unstable), the result is distinct, in score order, free of suppressed pairs, made of candidates, and complete when `topK <= 0`. |
| Nms.NMSBoxes | src/OpenVINOFaceDetectApp/FaceDetector/Yolov8nFaceDetector.cs:223-283 | The indices are the greedy selection over a descending order of the candidates, cut to `topK`. The rectangles are the boxes at those indices. |
| Nms.NMSBoxesGuarantees | src/OpenVINOFaceDetectApp/FaceDetector/Yolov8nFaceDetector.cs:223-283 | Every index kept scores above the score threshold. The indices are distinct, in non-increasing score order, and no kept box overlaps an earlier one above the NMS threshold. At most `topK` are kept. With `topK <= 0`, every candidate dropped is suppressed by a kept box. |
| Nms.ShiftedBoxesOverlapFully | src/OpenVINOFaceDetectApp/FaceDetector/Yolov8nFaceDetector.cs:288-297 | Two 10 x 10 boxes one pixel apart overlap at 100/100. Even at a threshold of 0.95 only the first is kept. |
| OutputLoop.Collect | src/OpenVINOFaceDetectApp/FaceDetector/Yolov8nFaceDetector.cs:95-106 | No more outputs are released than exist. When no output throws, every output is released. |
| OutputLoop.CollectStopsAtFault | src/OpenVINOFaceDetectApp/FaceDetector/ResNet152AndATSSFaceDetector.cs:43-70 | An exception comes from the last output released (it is still released in `finally`), and every earlier output decoded without one. |
| OutputLoop.CollectAfterFault | src/OpenVINOFaceDetectApp/FaceDetector/Yolov8nFaceDetector.cs:95-106 | Once an output has thrown, the later outputs are neither decoded nor released. |
| RowBuffer.RowsFitEach | src/OpenVINOFaceDetectApp/FaceDetector/MobileNetv2AndSSDFaceDetector.cs:44-52 | If the last field of the last row is inside the buffer, so is the last field of every row. |
| RowBuffer.RowFields | src/OpenVINOFaceDetectApp/FaceDetector/MobileNetv2AndSSDFaceDetector.cs:46-52 | Field `f` of row `i` is the float at `i * boxNum + f`. |
| RowBuffer.ReadRows | src/OpenVINOFaceDetectApp/FaceDetector/MobileNetv2AndSSDFaceDetector.cs:44-54 | The row loop returns one detection per row, in row order, exactly when every read is inside the span. Otherwise it throws an index error. |
| MobileNetv2AndSsdFaceDetector.SlotDetection | src/OpenVINOFaceDetectApp/FaceDetector/MobileNetv2AndSSDFaceDetector.cs:46-53 | An SSD detection never carries landmarks. |
| MobileNetv2AndSsdFaceDetector.DecodeSsd | src/OpenVINOFaceDetectApp/FaceDetector/MobileNetv2AndSSDFaceDetector.cs:40-54 | An output of rank below 4 throws an index error. Index errors are the only exception. A decoded output has exactly `Shape[2]` detections. |
| MobileNetv2AndSsdFaceDetector.DecodedSlot | src/OpenVINOFaceDetectApp/FaceDetector/MobileNetv2AndSSDFaceDetector.cs:44-53 | Detection `k` is decoded from slot `k`'s own seven floats. |
| MobileNetv2AndSsdFaceDetector.DecodeOutput | src/OpenVINOFaceDetectApp/FaceDetector/MobileNetv2AndSSDFaceDetector.cs:40-54 | The slot loop computes the decoded output. |
| MobileNetv2AndSsdFaceDetector.WellFormedOutputDecodes | src/OpenVINOFaceDetectApp/FaceDetector/MobileNetv2AndSSDFaceDetector.cs:42-54 | A `[1, 1, N, 7]` output whose buffer matches its shape never throws and gives `N` detections. |
| MobileNetv2AndSsdFaceDetector.SlotReadsOwnFields | src/OpenVINOFaceDetectApp/FaceDetector/MobileNetv2AndSSDFaceDetector.cs:46-52 | Two outputs that agree on slot `i`'s seven floats give the same detection `i`. |
| MobileNetv2AndSsdFaceDetector.SlotBoxSpansCorners | src/OpenVINOFaceDetectApp/FaceDetector/MobileNetv2AndSSDFaceDetector.cs:46-53 | The detection's class is the truncated label and its confidence is `conf`. Its box runs from the scaled, truncated top-left corner to the scaled, truncated bottom-right corner. |
| MobileNetv2AndSsdFaceDetector.OrderedCornersGiveNonNegativeSize | src/OpenVINOFaceDetectApp/FaceDetector/MobileNetv2AndSSDFaceDetector.cs:49-53 | Ordered corners give a box whose width and height are not negative. |
| MobileNetv2AndSsdFaceDetector.NormalisedCornerInside | src/OpenVINOFaceDetectApp/FaceDetector/MobileNetv2AndSSDFaceDetector.cs:49-52 | A corner normalised to `[0, 1]` lands in `[0, size]` pixels. |
| MobileNetv2AndSsdFaceDetector.CentredSlot | src/OpenVINOFaceDetectApp/FaceDetector/MobileNetv2AndSSDFaceDetector.cs:46-53 | On a 100 x 100 bitmap, the slot `(0, 0, 0.9, 0.1, 0.1, 0.5, 0.5)` is the box `(10, 10, 40, 40)` with confidence 0.9. |
| MobileNetv2AndSsdFaceDetector.ZeroSlot | src/OpenVINOFaceDetectApp/FaceDetector/MobileNetv2AndSSDFaceDetector.cs:46-53 | An all-zero slot still gives a detection: an empty box at the origin. |
| MobileNetv2AndSsdFaceDetector.TwoSlotsDecode | src/OpenVINOFaceDetectApp/FaceDetector/MobileNetv2AndSSDFaceDetector.cs:44-54 | A two-slot output decodes to the detections of its two slots, in order. |
| MobileNetv2AndSsdFaceDetector.TwoSlotOutput | src/OpenVINOFaceDetectApp/FaceDetector/MobileNetv2AndSSDFaceDetector.cs:40-54 | The `[1, 1, 2, 7]` example gives two detections. The all-zero slot is not filtered out. |
| MobileNetv2AndSsdFaceDetector.Detect | src/OpenVINOFaceDetectApp/FaceDetector/MobileNetv2AndSSDFaceDetector.cs:25-56 | A null bitmap or request gives an empty list without inference. A conversion failure throws its exception with nothing released. The single output is released once exactly when the bitmap converts, and it is then decoded on the bitmap's size. |
| ResNet152AndAtssFaceDetector.RowDetection | src/OpenVINOFaceDetectApp/FaceDetector/ResNet152AndATSSFaceDetector.cs:55-63 | An ATSS detection has class 0 and never carries landmarks. |
| ResNet152AndAtssFaceDetector.DecodeOutput | src/OpenVINOFaceDetectApp/FaceDetector/ResNet152AndATSSFaceDetector.cs:47-64 | A skipped output adds nothing. Only an output that is not skipped can throw, and then only an index error. Decoding extends the list and never changes earlier entries. A decoded output adds exactly `Shape[0]` detections. |
| ResNet152AndAtssFaceDetector.DecodedRow | src/OpenVINOFaceDetectApp/FaceDetector/ResNet152AndATSSFaceDetector.cs:52-63 | The `k`-th detection an output adds is decoded from row `k`'s own five floats. |
| ResNet152AndAtssFaceDetector.RowBoxSpansCorners | src/OpenVINOFaceDetectApp/FaceDetector/ResNet152AndATSSFaceDetector.cs:55-63 | The class is 0 and the confidence is field 4. The box runs between the two corners, each scaled by the width and height ratios and truncated. |
| ResNet152AndAtssFaceDetector.OrderedCornersGiveNonNegativeSize | src/OpenVINOFaceDetectApp/FaceDetector/ResNet152AndATSSFaceDetector.cs:58-63 | Ordered corners and non-negative ratios give a box whose width and height are not negative. |
| ResNet152AndAtssFaceDetector.CorrectedGuardNeverFaults | src/OpenVINOFaceDetectApp/FaceDetector/ResNet152AndATSSFaceDetector.cs:47-64 | With the row-width guard, an output whose buffer matches its shape never throws. |
| ResNet152AndAtssFaceDetector.AsWrittenNarrowRowsFault | src/OpenVINOFaceDetectApp/FaceDetector/ResNet152AndATSSFaceDetector.cs:47-55 | With the guard as written, a rank-2 output with fewer than 5 floats per row but at least 5 in all passes the guard and throws an index error. |
| ResNet152AndAtssFaceDetector.NarrowOutputExample | src/OpenVINOFaceDetectApp/FaceDetector/ResNet152AndATSSFaceDetector.cs:47-55 | A `[2, 4]` output of 8 floats throws under the guard as written. The corrected guard skips it. |
| ResNet152AndAtssFaceDetector.GuardsAgreeOnWideRows | src/OpenVINOFaceDetectApp/FaceDetector/ResNet152AndATSSFaceDetector.cs:47-50 | On outputs that are skipped anyway, or whose rows have at least 5 fields, the two guards decode identically. |
| ResNet152AndAtssFaceDetector.SkippedOutputsAddNothing | src/OpenVINOFaceDetectApp/FaceDetector/ResNet152AndATSSFaceDetector.cs:43-70 | When every output is skipped, the result is empty and every output is still released. |
| ResNet152AndAtssFaceDetector.CorrectedLoopCompletes | src/OpenVINOFaceDetectApp/FaceDetector/ResNet152AndATSSFaceDetector.cs:43-70 | With the corrected guard, well-formed outputs never throw and all are released. |
| ResNet152AndAtssFaceDetector.DecodeOutputFaces | src/OpenVINOFaceDetectApp/FaceDetector/ResNet152AndATSSFaceDetector.cs:55-63 | Every detection an output adds has class 0 and no landmarks. |
| ResNet152AndAtssFaceDetector.DecodedFaces | src/OpenVINOFaceDetectApp/FaceDetector/ResNet152AndATSSFaceDetector.cs:43-70 | After the whole loop, every detection has class 0 and no landmarks. |
| ResNet152AndAtssFaceDetector.DecodeRows | src/OpenVINOFaceDetectApp/FaceDetector/ResNet152AndATSSFaceDetector.cs:47-64 | The skip tests and the row loop compute the decoded output. |
| ResNet152AndAtssFaceDetector.CollectDetections | src/OpenVINOFaceDetectApp/FaceDetector/ResNet152AndATSSFaceDetector.cs:43-70 | The `foreach` with `try`/`finally` gives the loop's result. It releases outputs in order, as many as the loop reaches. |
| ResNet152AndAtssFaceDetector.Detect | src/OpenVINOFaceDetectApp/FaceDetector/ResNet152AndATSSFaceDetector.cs:27-72 | A null bitmap or request gives an empty list. A conversion failure throws its exception. Detection proceeds exactly when the bitmap converts; the outputs are then decoded with ratios of bitmap size to input size and released in order. Every detection has class 0 and no landmarks. With the corrected guard, well-formed outputs never throw. |
| ResNet152AndAtssFaceDetector.RescaledRow | src/OpenVINOFaceDetectApp/FaceDetector/ResNet152AndATSSFaceDetector.cs:55-63 | With ratios 2 and 1, the row `(10, 10, 20, 20, 0.8)` is the box `(20, 10, 20, 10)` with confidence 0.8. |
| ResNet152AndAtssFaceDetector.DoubleWidthRatios | src/OpenVINOFaceDetectApp/FaceDetector/ResNet152AndATSSFaceDetector.cs:41 | A 600 x 300 bitmap on a 300 x 300 input gives ratios 2 and 1. |
| ResNet152AndAtssFaceDetector.SingleOutputLoop | src/OpenVINOFaceDetectApp/FaceDetector/ResNet152AndATSSFaceDetector.cs:43-70 | A single output is decoded once and released once. |
| ResNet152AndAtssFaceDetector.SingleRowDecodes | src/OpenVINOFaceDetectApp/FaceDetector/ResNet152AndATSSFaceDetector.cs:52-63 | A one-row output that is not skipped gives the detection of that row. |
| ResNet152AndAtssFaceDetector.SingleRowOutput | src/OpenVINOFaceDetectApp/FaceDetector/ResNet152AndATSSFaceDetector.cs:41-70 | A `[1, 5]` output on a 600 x 300 bitmap gives exactly the rescaled detection, and the output is released. |
| Yolov8nFaceDetector.Sigmoid | src/OpenVINOFaceDetectApp/FaceDetector/Yolov8nFaceDetector.cs:192-195 | `1 / (1 + e^-x)` lies strictly between 0 and 1. It is above 0.5 exactly when `e^-x < 1`. |
| Yolov8nFaceDetector.Softmax | src/OpenVINOFaceDetectApp/FaceDetector/Yolov8nFaceDetector.cs:197-209 | Same length as the input, and every entry lies in `(0, 1]`. |
| Yolov8nFaceDetector.SoftmaxSumsToOne | src/OpenVINOFaceDetectApp/FaceDetector/Yolov8nFaceDetector.cs:197-209 | The normalised exponentials sum to 1. |
| Yolov8nFaceDetector.ExpectationBounds | src/OpenVINOFaceDetectApp/FaceDetector/Yolov8nFaceDetector.cs:159-163 | `sum n * p[n]` over the first `m` bins is at least 0 and at most `(m - 1)` times their mass. |
| Yolov8nFaceDetector.DflExpectationBounds | src/OpenVINOFaceDetectApp/FaceDetector/Yolov8nFaceDetector.cs:151-163 | The DFL distance of one side lies in `[0, reg_max - 1]`. |
| Yolov8nFaceDetector.BlockOffsets | src/OpenVINOFaceDetectApp/FaceDetector/Yolov8nFaceDetector.cs:123-125 | The class block starts after the `64 * area` DFL floats. The keypoint block follows the single class channel. |
| Yolov8nFaceDetector.Stride | src/OpenVINOFaceDetectApp/FaceDetector/Yolov8nFaceDetector.cs:122 | `Math.Ceiling(inputH / feat_h)`: the least stride `s` with `s * feat_h >= inputH`. |
| Yolov8nFaceDetector.GridOf | src/OpenVINOFaceDetectApp/FaceDetector/Yolov8nFaceDetector.cs:120-125 | The grid is `Shape[2]` x `Shape[3]`, with the ceiling stride. |
| Yolov8nFaceDetector.ChannelInBlock | src/OpenVINOFaceDetectApp/FaceDetector/Yolov8nFaceDetector.cs:155 | Channel `c` of a cell is read from channel block `c`. |
| Yolov8nFaceDetector.ChannelOffsetInjective | src/OpenVINOFaceDetectApp/FaceDetector/Yolov8nFaceDetector.cs:138-182 | Distinct (channel, cell) pairs read distinct floats. |
| Yolov8nFaceDetector.DflInRange | src/OpenVINOFaceDetectApp/FaceDetector/Yolov8nFaceDetector.cs:153-156 | Every DFL read lies before the class block, so it is inside the span whenever the class slice exists. |
| Yolov8nFaceDetector.KpReadsBounded | src/OpenVINOFaceDetectApp/FaceDetector/Yolov8nFaceDetector.cs:179-185 | Every keypoint read lies in the keypoint block, no later than the last keypoint's `y`. |
| Yolov8nFaceDetector.MaxClassLogit | src/OpenVINOFaceDetectApp/FaceDetector/Yolov8nFaceDetector.cs:134-144 | `max_conf` is at least -10000 and at least every class logit. It is either the start value or one of the logits. |
| Yolov8nFaceDetector.DistanceBounds | src/OpenVINOFaceDetectApp/FaceDetector/Yolov8nFaceDetector.cs:148-166 | Each side distance `dis * stride` lies in `[0, (reg_max - 1) * stride]`. |
| Yolov8nFaceDetector.CellBox | src/OpenVINOFaceDetectApp/FaceDetector/Yolov8nFaceDetector.cs:167-174 | The clamped box starts at or after `(0, 0)`. When its width (height) is positive, its right (bottom) edge is at most `imgw - 1` (`imgh - 1`). |
| Yolov8nFaceDetector.CellLandmarks | src/OpenVINOFaceDetectApp/FaceDetector/Yolov8nFaceDetector.cs:178-186 | A cell has exactly five landmarks. |
| Yolov8nFaceDetector.FiringCellsExact | src/OpenVINOFaceDetectApp/FaceDetector/Yolov8nFaceDetector.cs:129-147 | The cells visited are exactly those that fire, each once, in row-major order. |
| Yolov8nFaceDetector.Appended | src/OpenVINOFaceDetectApp/FaceDetector/Yolov8nFaceDetector.cs:175-186 | Each of the three lists grows by one per proposal. |
| Yolov8nFaceDetector.AppendedKeepsPrefix | src/OpenVINOFaceDetectApp/FaceDetector/Yolov8nFaceDetector.cs:175-186 | Appending keeps the three lists parallel and leaves earlier entries untouched. |
| Yolov8nFaceDetector.AppendedEntries | src/OpenVINOFaceDetectApp/FaceDetector/Yolov8nFaceDetector.cs:175-186 | The `k`-th appended entry of each list comes from the `k`-th proposal. |
| Yolov8nFaceDetector.ScanOf | src/OpenVINOFaceDetectApp/FaceDetector/Yolov8nFaceDetector.cs:129-189 | The scan throws exactly when some firing cell reads a keypoint outside the span. |
| Yolov8nFaceDetector.ScanRow | src/OpenVINOFaceDetectApp/FaceDetector/Yolov8nFaceDetector.cs:131-188 | The inner loop over a row either throws an index error (a keypoint read fails) or extends the scan by that row. |
| Yolov8nFaceDetector.ScanCells | src/OpenVINOFaceDetectApp/FaceDetector/Yolov8nFaceDetector.cs:129-189 | The nested loops compute the scan. |
| Yolov8nFaceDetector.ProposalsOf | src/OpenVINOFaceDetectApp/FaceDetector/Yolov8nFaceDetector.cs:118-127 | A shape of rank below 4 throws an index error. |
| Yolov8nFaceDetector.GenerateProposal | src/OpenVINOFaceDetectApp/FaceDetector/Yolov8nFaceDetector.cs:118-190 | The method computes the proposals of one output. |
| Yolov8nFaceDetector.CellProposalPlausible | src/OpenVINOFaceDetectApp/FaceDetector/Yolov8nFaceDetector.cs:145-186 | A firing cell's proposal has confidence above 0.5, a box clamped to the bitmap, and five landmarks. |
| Yolov8nFaceDetector.FiringCellPlausible | src/OpenVINOFaceDetectApp/FaceDetector/Yolov8nFaceDetector.cs:145-186 | When the scan does not throw, every firing cell decodes to such a proposal. |
| Yolov8nFaceDetector.DecodedPlausible | src/OpenVINOFaceDetectApp/FaceDetector/Yolov8nFaceDetector.cs:129-189 | Every proposal of a scan that does not throw is plausible. |
| Yolov8nFaceDetector.AppendedValid | src/OpenVINOFaceDetectApp/FaceDetector/Yolov8nFaceDetector.cs:175-186 | Appending plausible proposals to valid lists keeps them valid. |
| Yolov8nFaceDetector.ProposalsOfValid | src/OpenVINOFaceDetectApp/FaceDetector/Yolov8nFaceDetector.cs:118-190 | An output that decodes keeps the lists valid and leaves earlier proposals untouched. |
| Yolov8nFaceDetector.FullOutputDecodes | src/OpenVINOFaceDetectApp/FaceDetector/Yolov8nFaceDetector.cs:126-182 | An output of rank 4 with all `(64 + 1 + 15) * area` floats never throws. |
| Yolov8nFaceDetector.YoloInit | src/OpenVINOFaceDetectApp/FaceDetector/Yolov8nFaceDetector.cs:28-58 | Device faults propagate and a null request fails. Past those, it succeeds exactly when the input shape has rank 2 or more, and then the input size is `(Shape[1], Shape[1])`. |
| Yolov8nFaceDetector.YoloInitAgreesWithBase | src/OpenVINOFaceDetectApp/FaceDetector/Yolov8nFaceDetector.cs:56 | Whenever the base `Init` succeeds, the Yolo override does too, with the same request and height. Their widths agree exactly when `Shape[1] == Shape[2]`. |
| Yolov8nFaceDetector.YoloToTensor | src/OpenVINOFaceDetectApp/FaceDetector/Yolov8nFaceDetector.cs:60-68 | A null bitmap or a failed resize gives no tensor. A copy failure throws. Otherwise the tensor is the BGR floats of the resized BGRA bitmap. |
| Yolov8nFaceDetector.YoloTensorInUnitRange | src/OpenVINOFaceDetectApp/FaceDetector/Yolov8nFaceDetector.cs:65 | The input tensor has `W * H * 3` floats, all in `[0, 1]`. |
| Yolov8nFaceDetector.CollectValid | src/OpenVINOFaceDetectApp/FaceDetector/Yolov8nFaceDetector.cs:95-106 | When the loop over outputs does not throw, its lists are valid. |
| Yolov8nFaceDetector.CollectProposals | src/OpenVINOFaceDetectApp/FaceDetector/Yolov8nFaceDetector.cs:95-106 | The `foreach` with `try`/`finally` gives the loop's result. It releases outputs in order, as many as the loop reaches. |
| Yolov8nFaceDetector.DetectionOfPlausible | src/OpenVINOFaceDetectApp/FaceDetector/Yolov8nFaceDetector.cs:112 | A result from a valid proposal has class 0, confidence above 0.5, a non-negative position and its five landmarks. |
| Yolov8nFaceDetector.BuildResults | src/OpenVINOFaceDetectApp/FaceDetector/Yolov8nFaceDetector.cs:108-114 | One result per selected index, in order, taken from that proposal. |
| Yolov8nFaceDetector.ResultsPlausible | src/OpenVINOFaceDetectApp/FaceDetector/Yolov8nFaceDetector.cs:108-114 | The results are plausible faces in non-increasing confidence order. |
| Yolov8nFaceDetector.SelectDetections | src/OpenVINOFaceDetectApp/FaceDetector/Yolov8nFaceDetector.cs:107-114 | NMS at 0.5/0.5 with no `topK`. The kept indices are distinct, no kept box overlaps an earlier one above 0.5, and every candidate dropped is covered by a kept box. The results are those proposals, ordered by confidence. |
| Yolov8nFaceDetector.Detect | src/OpenVINOFaceDetectApp/FaceDetector/Yolov8nFaceDetector.cs:70-116 | A null bitmap or request gives an empty list. A failed resize or color copy throws with no output released. Once the tensor exists, every output the loop reaches is released in order, and an exception propagates. On success, the results are the NMS selection of all proposals: distinct, free of suppressed pairs, complete, ordered by confidence, each with class 0 and five landmarks. |

## Left out

- Floating point: every `float` and `double` is a `real`. Float rounding, the `(float)` casts and the `/ 255f` rounding are not modelled. Infinity and NaN appear only in `Nms.Exceeds`, as the outcome of a zero denominator.
- Integer width: the `int` products (`i * boxNum`, the areas in `CalculateOverlap`, `area * reg_max * 4`) are unbounded and never wrap.
- OpenVINO calls are not modelled: `ReadModel`, `CreatePrePostProcessor`, `CompileModel`, `Run`, `Tensor.FromArray`, `GetData` and the element types. The available devices, the input shape of a created request and the outputs of a run are parameters.
- SkiaSharp calls are not modelled: `Resize`, `CanCopyTo`/`CopyTo`, `GetPixel` and the `using` disposal of bitmaps and tensors. They are fields of `SkiaOps` or `Bitmap`.
- `File.Exists` and `Path.GetFullPath`: the file system is the `fileExists` parameter of `BaseFaceDetector.Construct`.
- `Math.Exp` is the positive-valued parameter `exp`. The softmax is modelled without subtracting the maximum, as in the code.
- `GetDeviceName` reads the `Description` attribute by reflection. The model writes the mapping out. Its fallback to `value.ToString()` cannot arise for a defined device.
- Yolov8nFaceDetector.Detect: requires a positive input size. With a zero size the code divides by zero in float and gets infinite ratios, which the model does not represent.
- ResNet152AndAtssFaceDetector.Detect: requires a positive input size, for the same reason.
- Yolov8nFaceDetector.Detect: a disposed request counts as present, because `Dispose` never sets `InferRequest` to null. What `Run` does on a disposed request is OpenVINO's behaviour; the model hands over the given outputs.
- MobileNetv2AndSsdFaceDetector.Detect: a disposed request counts as present, as for the Yolo detector.
- ResNet152AndAtssFaceDetector.Detect: a disposed request counts as present, as for the Yolo detector.
- Yolov8nFaceDetector.GridOf: with `feat_h == 0` the stride (a float division by zero) is left unconstrained. No cell is visited in that case.
- Nms.SortByScore: `List.Sort` is unstable and its order among equal scores is unspecified. The guarantees are proved for every descending order (`Nms.IsScoreOrder`), and the model sorts with one insertion sort.
- MobileNetv2AndSsdFaceDetector.DecodeSsd: the order of the seven reads within a slot is not modelled. A slot faults exactly when its last field `y_max` is outside the span. The unused `image_id` field is never read.
- ResNet152AndAtssFaceDetector.DecodeOutput: likewise, a row faults exactly when its confidence field is outside the span.
- The `IFaceDetector` interface, the `DetectOptions` model and the capture view model are not part of this model. They hold no detection logic.
- Concurrency and the detectors' own `Dispose` overrides beyond the base `Dispose` are not modelled.

## Findings

| source | as written | input that shows it | evidently intended | confidence | as-written member | corrected member |
|---|---|---|---|---|---|---|
| src/OpenVINOFaceDetectApp/FaceDetector/ResNet152AndATSSFaceDetector.cs:47-55 | The guard skips an output when its total `Size` is below 5 or its rank is below 2. It never checks the row width `Shape[1]`, yet every row reads field 4. | A well-formed output of shape `[2, 4]` holding 8 floats passes the guard. Row 1 reads `result[1 * 4 + 4]` = `result[8]`, which throws `IndexOutOfRange`. | Skip outputs whose rows hold fewer than the five fields read. | not executed; medium | ResNet152AndAtssFaceDetector.AsWrittenNarrowRowsFault | ResNet152AndAtssFaceDetector.CorrectedGuardNeverFaults |

`ResNet152AndAtssFaceDetector.Detect` takes the guard as a parameter:

- `AsWritten` is the code as it stands. `ResNet152AndAtssFaceDetector.NarrowOutputExample` exhibits the failing input.
- `Corrected` also skips rows narrower than five fields. `ResNet152AndAtssFaceDetector.CorrectedLoopCompletes` shows that it never throws on well-formed outputs.
- `ResNet152AndAtssFaceDetector.GuardsAgreeOnWideRows` shows the two guards differ only on such narrow outputs.
