/** `SkiaSharpImageConvert`: repacking a bitmap's pixels into the BGR byte or
    float buffers the models take as input. */
module SkiaSharpImageConvert {
  import opened Faults
  import opened SkiaSharp

  /** What a public converter returns: the buffer and its `out` parameters. */
  datatype Converted<T> = Converted(data: seq<T>, width: nat, height: nat, channels: nat)

  /** The number of colour channels every converter reports. */
  const Channels: nat := 3

  /** The buffer `ConvertToByte` accepts: present, non-empty and made of
      whole 4-byte pixels. */
  predicate WholePixels(bytes: Option<seq<byte>>)
  {
    bytes.Some? && |bytes.value| > 0 && |bytes.value| % 4 == 0
  }

  /** The exception `ConvertToByte` raises on any other buffer: the
      "data is null" exception for a missing or empty one, an index error
      for one whose length is not a multiple of 4. */
  function ByteFault(bytes: Option<seq<byte>>): Fault
  {
    if bytes.None? || |bytes.value| == 0 then BitmapDataNull else IndexOutOfRange
  }

  /** Reference layout of the alpha-stripped buffer: output slot `3p + c`
      holds input byte `4p + c`, for every pixel `p` and channel `c < 3`. */
  function StripAlpha(bytes: seq<byte>): (r: seq<byte>)
  {
    seq(|bytes| / 4 * 3, k requires 0 <= k < |bytes| / 4 * 3 => bytes[4 * (k / 3) + k % 3])
  }

  /** Where the `i`-th input byte lands when it is not an alpha byte: the
      loop has then written `i - i/4` bytes, and that slot maps back to `i`. */
  lemma WriteSlot(i: nat)
    requires (i + 1) % 4 != 0
    ensures var j := i - i / 4; 4 * (j / 3) + j % 3 == i
  {
    var q, m := i / 4, i % 4;
    assert i == 4 * q + m && m < 3;
    var j := i - i / 4;
    assert j == 3 * q + m;
    assert j / 3 == q && j % 3 == m;
  }

  /** With whole pixels the writes never run past the end of the output. */
  lemma WriteInBounds(i: nat, len: nat)
    requires len % 4 == 0 && i < len && (i + 1) % 4 != 0
    ensures i - i / 4 < len / 4 * 3
  {
    var q, m := i / 4, i % 4;
    assert i == 4 * q + m && m < 3;
    assert q < len / 4;
  }

  /** `ConvertToByte`: drops every fourth byte (the alpha channel) of the
      bitmap's buffer. A missing or empty buffer is refused; a buffer that is
      not made of whole pixels overruns the output buffer. */
  method ConvertToByte(bytes: Option<seq<byte>>) returns (r: Result<seq<byte>>)
    ensures bytes.None? || |bytes.value| == 0 ==> r == Err(BitmapDataNull)
    ensures bytes.Some? && |bytes.value| > 0 && |bytes.value| % 4 != 0 ==> r == Err(IndexOutOfRange)
    ensures r.Ok? <==> WholePixels(bytes)
    ensures r.Ok? ==> |r.value| == |bytes.value| / 4 * 3
    ensures r.Ok? ==> forall k :: 0 <= k < |r.value| ==> r.value[k] == bytes.value[4 * (k / 3) + k % 3]
    ensures r.Ok? ==> r.value == StripAlpha(bytes.value)
  {
    if bytes.None? || |bytes.value| == 0 {
      return Err(BitmapDataNull);
    }
    var buffer := bytes.value;
    var bgr: seq<byte> := seq(|buffer| / 4 * 3, _ => 0 as byte);
    var j := 0;
    for i := 0 to |buffer|
      invariant j == i - i / 4
      invariant j <= |bgr| == |buffer| / 4 * 3
      invariant forall k :: 0 <= k < j ==> bgr[k] == buffer[4 * (k / 3) + k % 3]
    {
      if (i + 1) % 4 == 0 {
        continue;
      }
      if j >= |bgr| {
        if |buffer| % 4 == 0 {
          WriteInBounds(i, |buffer|);
        }
        return Err(IndexOutOfRange);
      }
      WriteSlot(i);
      bgr := bgr[j := buffer[i]];
      j := j + 1;
    }
    assert |buffer| % 4 == 0;
    assert j == |bgr|;
    r := Ok(bgr);
  }

  /** One channel of a pixel as the float model expects it: blue, green and
      red, in that order, scaled to [0, 1]. */
  function ChannelValue(color: Color, channel: int): (v: real)
    requires 0 <= channel < 3
    ensures 0.0 <= v <= 1.0
  {
    if channel == 0 then color.blue as real / 255.0
    else if channel == 1 then color.green as real / 255.0
    else color.red as real / 255.0
  }

  /** Euclidean division recovers the row and the column of a row-major offset. */
  lemma RowMajor(w: nat, x: nat, y: nat)
    requires x < w
    ensures (y * w + x) / w == y && (y * w + x) % w == x
  {
    var p := y * w + x;
    var q, m := p / w, p % w;
    assert p == q * w + m && 0 <= m < w;
    if q > y {
      MulLe(y + 1, q, w);
      assert false;
    }
    if q < y {
      MulLe(q + 1, y, w);
      assert false;
    }
  }

  lemma MulLe(a: int, b: int, w: nat)
    requires a <= b
    ensures a * w <= b * w
  {
    assert b * w - a * w == (b - a) * w;
  }

  /** Pixel `(x, y)` of a `w x h` image lies inside the row-major range. */
  lemma PixelInBounds(w: nat, h: nat, x: nat, y: nat)
    requires x < w && y < h
    ensures y * w + x < w * h
  {
    assert (y + 1) * w == y * w + w;
    MulLe(y + 1, h, w);
  }

  lemma FloatSlot(w: nat, h: nat, x: nat, y: nat, c: nat)
    requires x < w && y < h && c < 3
    ensures var k := 3 * (y * w + x) + c;
      k < w * h * 3 && k / 3 == y * w + x && k % 3 == c && (k / 3) % w == x && (k / 3) / w == y
  {
    var p := y * w + x;
    PixelInBounds(w, h, x, y);
    var n := w * h;
    assert w * h * 3 == 3 * n;
    assert 3 * p + c < 3 * n;
    assert (3 * p + c) / 3 == p && (3 * p + c) % 3 == c;
    RowMajor(w, x, y);
  }

  /** The float at offset `k` of the buffer: channel `k % 3` of pixel
      `k / 3`, whose column is `(k/3) % W` and whose row is `(k/3) / W`. */
  function FloatAt(source: Bitmap, k: nat): real
    requires k < source.width * source.height * 3
  {
    assert source.width > 0;
    ChannelValue(source.pixel((k / 3) % source.width, (k / 3) / source.width), k % 3)
  }

  lemma FloatLayout(source: Bitmap, r: seq<real>)
    requires |r| == source.width * source.height * 3
    requires forall k :: 0 <= k < |r| ==> r[k] == FloatAt(source, k)
    ensures forall x: nat, y: nat, c: nat | x < source.width && y < source.height && c < 3 ::
      3 * (y * source.width + x) + c < |r| &&
      r[3 * (y * source.width + x) + c] == ChannelValue(source.pixel(x, y), c)
  {
    forall x: nat, y: nat, c: nat | x < source.width && y < source.height && c < 3
      ensures 3 * (y * source.width + x) + c < |r|
      ensures r[3 * (y * source.width + x) + c] == ChannelValue(source.pixel(x, y), c)
    {
      FloatSlot(source.width, source.height, x, y, c);
    }
  }

  /** `data` holds the bitmap's pixels row by row, three floats each: blue,
      green and red over 255. */
  predicate FloatPixels(data: seq<real>, source: Bitmap)
  {
    && |data| == source.width * source.height * 3
    && forall x: nat, y: nat, c: nat | x < source.width && y < source.height && c < 3 ::
         3 * (y * source.width + x) + c < |data| &&
         data[3 * (y * source.width + x) + c] == ChannelValue(source.pixel(x, y), c)
  }

  /** `ConvertToFloatArray`: reads every pixel row by row and stores its
      blue, green and red values divided by 255 at offset `3 * (y*W + x)`. */
  function ConvertToFloatArray(source: Bitmap): (r: seq<real>)
    ensures FloatPixels(r, source)
    ensures forall k :: 0 <= k < |r| ==> 0.0 <= r[k] <= 1.0
  {
    var r := seq(source.width * source.height * 3, k requires 0 <= k < source.width * source.height * 3 =>
      FloatAt(source, k));
    FloatLayout(source, r);
    r
  }

  /** The colour type the caller's bitmap must be copied to before repacking
      (`ConvertToBgra8888` / `ConvertToRgba8888`), or the bitmap itself when
      it already has it. */
  function InColorType(source: Bitmap, target: ColorType, ops: SkiaOps): (r: Result<Bitmap>)
    ensures source.colorType == target ==> r.Ok? && r.value == source
    ensures source.colorType != target ==> (r.Ok? <==> ops.canCopyTo(source, target))
    ensures r.Err? ==> r.fault == ColorCopyFailed
  {
    if source.colorType == target then Ok(source)
    else if !ops.canCopyTo(source, target) then Err(ColorCopyFailed)
    else Ok(ops.copyTo(source, target))
  }

  /** The byte converters: `To24BGRByteArray` (target Bgra8888) and
      `To24RGBByteArray` (target Rgba8888) differ only in the colour type. */
  method ToByteArray(source: Option<Bitmap>, target: ColorType, ops: SkiaOps) returns (r: Result<Converted<byte>>)
    ensures source.None? ==> r == Err(ArgumentNull)
    ensures r.Ok? ==> r.value.channels == Channels
    ensures source.Some? ==>
      match InColorType(source.value, target, ops)
      case Err(f) => r == Err(f)
      case Ok(b) =>
        && (r.Ok? <==> WholePixels(b.bytes))
        && (r.Ok? ==> r.value == Converted(StripAlpha(b.bytes.value), b.width, b.height, Channels))
        && (r.Err? ==> r.fault == ByteFault(b.bytes))
  {
    if source.None? {
      return Err(ArgumentNull);
    }
    var bitmap := InColorType(source.value, target, ops);
    if bitmap.Err? {
      return Err(bitmap.fault);
    }
    var b := bitmap.value;
    var data := ConvertToByte(b.bytes);
    if data.Err? {
      return Err(data.fault);
    }
    r := Ok(Converted(data.value, b.width, b.height, Channels));
  }

  /** `To24BGRByteArray`: the BGR bytes of the Bgra8888 form of the bitmap,
      with its width and height. */
  method To24BGRByteArray(source: Option<Bitmap>, ops: SkiaOps) returns (r: Result<Converted<byte>>)
    ensures source.None? ==> r == Err(ArgumentNull)
    ensures r.Ok? ==> r.value.channels == Channels
    ensures source.Some? ==>
      match InColorType(source.value, Bgra8888, ops)
      case Err(f) => r == Err(f)
      case Ok(b) =>
        && (r.Ok? <==> WholePixels(b.bytes))
        && (r.Ok? ==> r.value == Converted(StripAlpha(b.bytes.value), b.width, b.height, Channels))
        && (r.Err? ==> r.fault == ByteFault(b.bytes))
  {
    r := ToByteArray(source, Bgra8888, ops);
  }

  /** `To24RGBByteArray`: the RGB bytes of the Rgba8888 form of the bitmap,
      with its width and height. */
  method To24RGBByteArray(source: Option<Bitmap>, ops: SkiaOps) returns (r: Result<Converted<byte>>)
    ensures source.None? ==> r == Err(ArgumentNull)
    ensures r.Ok? ==> r.value.channels == Channels
    ensures source.Some? ==>
      match InColorType(source.value, Rgba8888, ops)
      case Err(f) => r == Err(f)
      case Ok(b) =>
        && (r.Ok? <==> WholePixels(b.bytes))
        && (r.Ok? ==> r.value == Converted(StripAlpha(b.bytes.value), b.width, b.height, Channels))
        && (r.Err? ==> r.fault == ByteFault(b.bytes))
  {
    r := ToByteArray(source, Rgba8888, ops);
  }

  /** `To24BGRFloatArray`: the float buffer of the Bgra8888 form of the bitmap,
      blue, green and red over 255 pixel by pixel, with its width and height. */
  function To24BGRFloatArray(source: Option<Bitmap>, ops: SkiaOps): (r: Result<Converted<real>>)
    ensures source.None? ==> r == Err(ArgumentNull)
    ensures r.Ok? ==> r.value.channels == Channels
    ensures r.Ok? ==> source.Some? && InColorType(source.value, Bgra8888, ops).Ok?
    ensures r.Ok? ==> |r.value.data| == r.value.width * r.value.height * 3
    ensures source.Some? && source.value.colorType == Bgra8888 ==>
      r.Ok? && r.value.width == source.value.width && r.value.height == source.value.height
    ensures source.Some? ==>
      match InColorType(source.value, Bgra8888, ops)
      case Err(f) => r == Err(f)
      case Ok(b) =>
        && r.Ok? && r.value.width == b.width && r.value.height == b.height
        && FloatPixels(r.value.data, b)
  {
    if source.None? then Err(ArgumentNull)
    else
      match InColorType(source.value, Bgra8888, ops)
      case Err(f) => Err(f)
      case Ok(b) => Ok(Converted(ConvertToFloatArray(b), b.width, b.height, Channels))
  }
}
