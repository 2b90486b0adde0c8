/** The parts of SkiaSharp the detectors touch, as abstract values. The
    library itself (resizing, colour-type copies) is foreign code, so its
    operations are supplied by the caller as functions. */
module SkiaSharp {
  import opened Faults

  newtype byte = x: int | 0 <= x < 256

  datatype ColorType = Bgra8888 | Rgba8888 | OtherColorType

  /** `SKColor`: one pixel's channels. */
  datatype Color = Color(red: byte, green: byte, blue: byte, alpha: byte)

  /** `SKBitmap`: its dimensions, colour type, the raw `Bytes` buffer (which
      may be `null`) and `GetPixel`. */
  datatype Bitmap = Bitmap(
    width: nat,
    height: nat,
    colorType: ColorType,
    bytes: Option<seq<byte>>,
    pixel: (int, int) -> Color)

  /** The foreign SkiaSharp calls: `CanCopyTo`, `CopyTo` and `Resize`
      (`Resize` yields `null` when it fails). */
  datatype SkiaOps = SkiaOps(
    canCopyTo: (Bitmap, ColorType) -> bool,
    copyTo: (Bitmap, ColorType) -> Bitmap,
    resize: (Bitmap, int, int) -> Option<Bitmap>)
}
