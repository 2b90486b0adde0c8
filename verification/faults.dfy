/** Failure values shared by the detector modules.

    The source signals failures with .NET exceptions and absent objects with
    `null`; here both become ordinary values so that every operation is total. */
module Faults {

  /** A nullable reference: `None` stands for `null`. */
  datatype Option<+T> = None | Some(value: T)

  /** The exceptions the detector code raises (or lets the runtime raise). */
  datatype Fault =
    | ModelFileNotFound       // FileNotFoundException in the base constructor
    | UnsupportedDevice       // ArgumentOutOfRangeException for an undefined DeviceType
    | NoAvailableDevices      // "No available devices"
    | DeviceNotAvailable(device: string)
    | InferRequestFailed      // "Create infer request failed."
    | TensorConversionFailed  // "Can not convert bitmap to tensor object."
    | ArgumentNull            // ArgumentNullException of the image converters
    | ColorCopyFailed         // "Can not copy image color type to ..."
    | BitmapDataNull          // "SKBitmap data is null"
    | IndexOutOfRange         // an array, span or Shape index past the end
    | SliceOutOfRange         // Span.Slice with a start past the end

  datatype Result<+T> = Ok(value: T) | Err(fault: Fault)
}
