/** `BaseFaceDetector` and the `DeviceType` enumeration: construction guards,
    device selection, input-size extraction, disposal and the shared first
    half of every `Detect` (null checks and tensor conversion). */
module BaseFaceDetector {
  import opened Faults
  import opened Drawing
  import opened SkiaSharp
  import opened SkiaSharpImageConvert

  /** `DeviceType`; each value carries the device string of its
      `Description` attribute. */
  datatype DeviceType = CPU | GPU | GPU_0 | GPU_1 | GPU_2 | NPU

  /** The enumeration's underlying integer. */
  function DeviceCode(d: DeviceType): int
  {
    match d
    case CPU => 0
    case GPU => 1
    case GPU_0 => 2
    case GPU_1 => 3
    case GPU_2 => 4
    case NPU => 5
  }

  /** `Enum.IsDefined` followed by the cast: the value named by an integer,
      if any. */
  function DeviceFromCode(code: int): (r: Option<DeviceType>)
    ensures r.Some? <==> 0 <= code < 6
    ensures r.Some? ==> DeviceCode(r.value) == code
  {
    if code == 0 then Some(CPU)
    else if code == 1 then Some(GPU)
    else if code == 2 then Some(GPU_0)
    else if code == 3 then Some(GPU_1)
    else if code == 4 then Some(GPU_2)
    else if code == 5 then Some(NPU)
    else None
  }

  lemma DeviceCodeRoundTrip(d: DeviceType)
    ensures DeviceFromCode(DeviceCode(d)) == Some(d)
  {
  }

  /** `GetDeviceName`: the `Description` attribute of the value (every
      value has one, so the `ToString` fallback is never taken). */
  function GetDeviceName(d: DeviceType): string
  {
    match d
    case CPU => "CPU"
    case GPU => "GPU"
    case GPU_0 => "GPU.0"
    case GPU_1 => "GPU.1"
    case GPU_2 => "GPU.2"
    case NPU => "NPU"
  }

  /** The device a device string names; the partner of `GetDeviceName`. */
  function DeviceFromName(name: string): (r: Option<DeviceType>)
    ensures r.Some? ==> GetDeviceName(r.value) == name
  {
    if name == "CPU" then Some(CPU)
    else if name == "GPU" then Some(GPU)
    else if name == "GPU.0" then Some(GPU_0)
    else if name == "GPU.1" then Some(GPU_1)
    else if name == "GPU.2" then Some(GPU_2)
    else if name == "NPU" then Some(NPU)
    else None
  }

  /** Every device string maps back to its device. */
  lemma DeviceNameRoundTrip(d: DeviceType)
    ensures DeviceFromName(GetDeviceName(d)) == Some(d)
  {
  }

  /** No two devices share a device string. */
  lemma DeviceNameInjective(d: DeviceType, e: DeviceType)
    ensures GetDeviceName(d) == GetDeviceName(e) ==> d == e
  {
    DeviceNameRoundTrip(d);
    DeviceNameRoundTrip(e);
  }

  datatype Layout = NHWC | NCHW

  /** The model input's spatial size read from its shape: `(W, H)` is
      `(Shape[2], Shape[1])` for NHWC and `(Shape[3], Shape[2])` for NCHW. A
      shape too short for the index makes the `Shape` indexer throw. */
  function InputSizeFromShape(layout: Layout, shape: seq<nat>): (r: Result<Size>)
    ensures layout == NHWC ==> (r.Ok? <==> |shape| >= 3)
    ensures layout == NCHW ==> (r.Ok? <==> |shape| >= 4)
    ensures r.Ok? && layout == NHWC ==> r.value == Size(shape[2], shape[1])
    ensures r.Ok? && layout == NCHW ==> r.value == Size(shape[3], shape[2])
    ensures r.Err? ==> r.fault == IndexOutOfRange
  {
    match layout
    case NHWC => if |shape| >= 3 then Ok(Size(shape[2], shape[1])) else Err(IndexOutOfRange)
    case NCHW => if |shape| >= 4 then Ok(Size(shape[3], shape[2])) else Err(IndexOutOfRange)
  }

  /** An OpenVINO `InferRequest`: the shape of its primary input, whether it
      has been disposed, and how often it has been released. */
  datatype InferRequest = InferRequest(inputShape: seq<nat>, disposed: bool, releases: nat)

  /** What `Init` hands back to the constructor. */
  datatype Initialized = Initialized(request: InferRequest, inputSize: Size)

  /** A constructed detector: its request (`null` when absent), the cached
      input size and the model path. */
  datatype Detector = Detector(request: Option<InferRequest>, inputSize: Size, modelPath: string)

  /** The device checks at the start of `Init`: a `null` or empty device list
      is refused, and so is a device whose name the engine does not list. On
      success the device string to compile for. */
  function SelectDevice(devices: Option<seq<string>>, device: DeviceType): (r: Result<string>)
    ensures r.Ok? <==> devices.Some? && |devices.value| > 0 && GetDeviceName(device) in devices.value
    ensures r.Ok? ==> r.value == GetDeviceName(device)
    ensures devices.None? || |devices.value| == 0 ==> r == Err(NoAvailableDevices)
    ensures devices.Some? && |devices.value| > 0 && GetDeviceName(device) !in devices.value ==>
      r == Err(DeviceNotAvailable(GetDeviceName(device)))
  {
    if devices.None? || |devices.value| == 0 then Err(NoAvailableDevices)
    else if GetDeviceName(device) !in devices.value then Err(DeviceNotAvailable(GetDeviceName(device)))
    else Ok(GetDeviceName(device))
  }

  /** The base `Init`. Reading, pre-processing and compiling the model are
      foreign; `created` is the infer request's input shape, or `None` when
      `CreateInferRequest` returned `null`. The input tensor is NHWC. */
  function Init(devices: Option<seq<string>>, device: DeviceType, created: Option<seq<nat>>): (r: Result<Initialized>)
    ensures r.Ok? ==> SelectDevice(devices, device).Ok? && created.Some?
    ensures SelectDevice(devices, device).Err? ==> r == Err(SelectDevice(devices, device).fault)
    ensures SelectDevice(devices, device).Ok? && created.None? ==> r == Err(InferRequestFailed)
    ensures r.Ok? ==> r.value.request == InferRequest(created.value, false, 0)
    ensures SelectDevice(devices, device).Ok? && created.Some? && |created.value| < 3 ==> r == Err(IndexOutOfRange)
    ensures r.Ok? ==> |created.value| >= 3 && r.value.inputSize == Size(created.value[2], created.value[1])
  {
    match SelectDevice(devices, device)
    case Err(f) => Err(f)
    case Ok(_) =>
      if created.None? then Err(InferRequestFailed)
      else
        match InputSizeFromShape(NHWC, created.value)
        case Err(f) => Err(f)
        case Ok(size) => Ok(Initialized(InferRequest(created.value, false, 0), size))
  }

  /** The constructor. `fileExists` stands for `File.Exists`, and `init` for
      the (virtual) `Init` of the concrete detector. The model path is checked
      before the device value, and both before `Init` runs. */
  function Construct(modelPath: Option<string>, deviceCode: int, fileExists: string -> bool,
                     init: DeviceType -> Result<Initialized>): (r: Result<Detector>)
    ensures modelPath.None? || |modelPath.value| == 0 || !fileExists(modelPath.value) ==> r == Err(ModelFileNotFound)
    ensures modelPath.Some? && |modelPath.value| > 0 && fileExists(modelPath.value) && DeviceFromCode(deviceCode).None? ==>
      r == Err(UnsupportedDevice)
    ensures r.Ok? <==> (modelPath.Some? && |modelPath.value| > 0 && fileExists(modelPath.value) &&
      DeviceFromCode(deviceCode).Some? && init(DeviceFromCode(deviceCode).value).Ok?)
    ensures r.Ok? ==> var i := init(DeviceFromCode(deviceCode).value).value;
      r.value == Detector(Some(i.request), i.inputSize, modelPath.value)
    ensures (modelPath.Some? && |modelPath.value| > 0 && fileExists(modelPath.value) &&
      DeviceFromCode(deviceCode).Some? && init(DeviceFromCode(deviceCode).value).Err?) ==>
      r == Err(init(DeviceFromCode(deviceCode).value).fault)
  {
    if modelPath.None? || |modelPath.value| == 0 || !fileExists(modelPath.value) then Err(ModelFileNotFound)
    else
      match DeviceFromCode(deviceCode)
      case None => Err(UnsupportedDevice)
      case Some(device) =>
        match init(device)
        case Err(f) => Err(f)
        case Ok(i) => Ok(Detector(Some(i.request), i.inputSize, modelPath.value))
  }

  /** A request that has not been disposed yet. */
  predicate Live(d: Detector)
  {
    d.request.Some? && !d.request.value.disposed
  }

  /** `Dispose`: releases the request only when it exists and is not yet
      disposed. */
  function Dispose(d: Detector): (r: Detector)
    ensures r.inputSize == d.inputSize && r.modelPath == d.modelPath
    ensures r.request.Some? <==> d.request.Some?
    ensures !Live(r)
    ensures Live(d) ==> r.request.value.releases == d.request.value.releases + 1
    ensures !Live(d) ==> r == d
  {
    if Live(d) then
      var req := d.request.value;
      d.(request := Some(req.(disposed := true, releases := req.releases + 1)))
    else d
  }

  /** `n` consecutive `Dispose` calls. */
  function DisposeTimes(d: Detector, n: nat): Detector
    decreases n
  {
    if n == 0 then d else DisposeTimes(Dispose(d), n - 1)
  }

  /** However often a detector is disposed, its request is released at most
      once, and exactly once when it was live. */
  lemma {:induction false} DisposeReleasesOnce(d: Detector, n: nat)
    requires n >= 1
    decreases n
    ensures DisposeTimes(d, n) == Dispose(d)
    ensures Live(d) ==> DisposeTimes(d, n).request.value.releases == d.request.value.releases + 1
  {
    if n > 1 {
      DisposeReleasesOnce(Dispose(d), n - 1);
    }
  }

  /** The outcome of the shared prologue of `Detect`. */
  datatype Admission = NothingToDetect | Proceed | Refuse(fault: Fault)

  /** Both `ToTensor` overrides resize first: a `null` bitmap or a failed
      resize gives a `null` tensor; otherwise the resized bitmap. */
  function Resized(bitmap: Option<Bitmap>, d: Detector, ops: SkiaOps): Option<Bitmap>
  {
    if bitmap.None? then None else ops.resize(bitmap.value, d.inputSize.width, d.inputSize.height)
  }

  /** The resized bitmap converts to a Bgra8888 buffer of whole pixels, so
      the base `ToTensor` yields a tensor. */
  predicate Converts(bitmap: Option<Bitmap>, d: Detector, ops: SkiaOps)
  {
    && Resized(bitmap, d, ops).Some?
    && var b := InColorType(Resized(bitmap, d, ops).value, Bgra8888, ops);
       b.Ok? && WholePixels(b.value.bytes)
  }

  /** The exception the prologue raises for a bitmap that does not convert:
      "can not convert" for a failed resize, else the converter's own. */
  function ConversionFault(bitmap: Option<Bitmap>, d: Detector, ops: SkiaOps): Fault
    requires !Converts(bitmap, d, ops)
  {
    if Resized(bitmap, d, ops).None? then TensorConversionFailed
    else match InColorType(Resized(bitmap, d, ops).value, Bgra8888, ops)
      case Err(f) => f
      case Ok(b) => ByteFault(b.bytes)
  }

  /** The base `ToTensor`: the BGR byte buffer of the resized bitmap, or
      `null` (`Ok(None)`) when there is no bitmap or the resize failed.
      `Tensor.FromArray` itself is foreign. */
  method ToTensor(bitmap: Option<Bitmap>, d: Detector, ops: SkiaOps) returns (r: Result<Option<seq<byte>>>)
    ensures bitmap.None? ==> r == Ok(None)
    ensures Resized(bitmap, d, ops).None? ==> r == Ok(None)
    ensures r.Ok? && r.value.Some? ==> Resized(bitmap, d, ops).Some?
    ensures r.Ok? && r.value.Some? ==>
      var b := InColorType(Resized(bitmap, d, ops).value, Bgra8888, ops);
      b.Ok? && WholePixels(b.value.bytes) && r.value.value == StripAlpha(b.value.bytes.value)
    ensures Converts(bitmap, d, ops) ==>
      r == Ok(Some(StripAlpha(InColorType(Resized(bitmap, d, ops).value, Bgra8888, ops).value.bytes.value)))
    ensures Resized(bitmap, d, ops).Some? && !Converts(bitmap, d, ops) ==> r == Err(ConversionFault(bitmap, d, ops))
  {
    var resized := Resized(bitmap, d, ops);
    if resized.None? {
      return Ok(None);
    }
    var converted := To24BGRByteArray(resized, ops);
    if converted.Err? {
      return Err(converted.fault);
    }
    r := Ok(Some(converted.value.data));
  }

  /** The prologue shared by the detectors: no bitmap or no request means
      nothing to detect; a tensor that cannot be made is a fault. */
  function Admit<T>(bitmap: Option<Bitmap>, d: Detector, tensor: Result<Option<T>>): (a: Admission)
    ensures bitmap.None? || d.request.None? ==> a == NothingToDetect
    ensures bitmap.Some? && d.request.Some? && tensor.Ok? && tensor.value.None? ==> a == Refuse(TensorConversionFailed)
    ensures bitmap.Some? && d.request.Some? && tensor.Err? ==> a == Refuse(tensor.fault)
    ensures a == Proceed <==> bitmap.Some? && d.request.Some? && tensor.Ok? && tensor.value.Some?
  {
    if bitmap.None? || d.request.None? then NothingToDetect
    else match tensor
      case Err(f) => Refuse(f)
      case Ok(None) => Refuse(TensorConversionFailed)
      case Ok(Some(_)) => Proceed
  }

  /** The prologue of the byte-input detectors (SSD and ATSS). */
  method PrepareInput(bitmap: Option<Bitmap>, d: Detector, ops: SkiaOps) returns (a: Admission)
    ensures bitmap.None? || d.request.None? ==> a == NothingToDetect
    ensures bitmap.Some? && d.request.Some? && Resized(bitmap, d, ops).None? ==> a == Refuse(TensorConversionFailed)
    ensures a == Proceed <==> bitmap.Some? && d.request.Some? && Converts(bitmap, d, ops)
    ensures bitmap.Some? && d.request.Some? && !Converts(bitmap, d, ops) ==> a == Refuse(ConversionFault(bitmap, d, ops))
  {
    if bitmap.None? || d.request.None? {
      return NothingToDetect;
    }
    var tensor := ToTensor(bitmap, d, ops);
    a := Admit(bitmap, d, tensor);
  }

  /** A sequence of output indices `0, 1, ...` each released once, in order. */
  predicate ReleasedInOrder(released: seq<nat>)
  {
    forall k :: 0 <= k < |released| ==> released[k] == k
  }
}
