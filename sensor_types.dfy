/** Element types and stream descriptions shared by the acquisition and compositing steps. */
module SensorTypes {
  /** C# `byte`. */
  newtype byte = x: int | 0 <= x < 0x100

  /** C# `ushort`, the element type of the depth stream. */
  newtype ushort = x: int | 0 <= x < 0x1_0000

  /** Range of the C# `int` that `(int)` casts produce. */
  const Int32Min: int := -0x8000_0000
  const Int32Max: int := 0x7FFF_FFFF

  /** Bytes per pixel of a colour frame converted to `ColorImageFormat.Rgba`. */
  const RgbaBytesPerPixel: nat := 4

  /** Width, height and bytes per pixel of one stream, fixed for the session. */
  datatype FrameDescription = FrameDescription(width: nat, height: nat, bytesPerPixel: nat)
}
