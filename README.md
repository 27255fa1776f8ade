# Kinect body-index compositing, modelled in Dafny

This project models the per-frame pipeline of the Unity behaviour `KinectController`
(`Assets/KinectController.cs`). The behaviour keeps three raw sensor buffers:

- body index: one byte per depth pixel, 255 meaning "no person";
- colour: an RGBA image;
- depth: 16-bit samples.

Every frame it refreshes whichever of these buffers the multi-source reader delivered. It then
maps the depth buffer into colour space. Last, it rewrites an RGBA32 texture buffer at body-index
resolution. Each texture pixel is transparent on background pixels. On person pixels it is the
colour sampled at the mapped point, or opaque black when that point falls outside the colour image.

Modules:

- `SensorTypes`: `byte`, `ushort`, the C# `int` range, stream descriptions.
- `ColorSpace`: colour-space points with finite or non-finite components, and the C# `(int)` cast.
- `Compositor`: the per-pixel rule `PixelOf`, the RGBA32 layout (`Flatten`/`Unflatten`), and the
  texture a pass produces (`Composited`), with their properties.
- `Acquisition`: the buffers after one cycle (`Acquire`) and after a run of cycles (`Cycles`).
- `Kinect`: the class `KinectController` with its fields. `Start` allocates the buffers, `Update`
  runs one cycle in place, `OnDestroy` releases the reader and the sensor. Small stand-in classes
  model the sensor's open flag and the reader's disposal.

`Update` takes the two things the sensor SDK supplies as parameters:

- `latest` is what `AcquireLatestFrame` returned: `None` for null, else per sub-frame either its
  data or `None` when its reference could not be acquired.
- `mapDepthFrameToColorSpace` is the coordinate mapper, a length-preserving function.

The compositing loop is proved against `Composited`. Acquisition is proved against `Acquire`.

The C# `(int)` cast of a float truncates toward zero, so -0.5 gives column 0 and is sampled.
For NaN, infinities and values outside `int` range, the C# language leaves the result
unspecified. The model fixes it to `int.MinValue`, the value the x86/x64 conversion gives
(the only platforms the Kinect SDK runs on). Such a point is therefore always out of view.

## Model

| member | source | states |
|---|---|---|
| `ColorSpace.Truncate` | Assets/KinectController.cs:145-146 | the integer part of a value, toward zero: never past the value, less than one away, sign kept |
| `ColorSpace.CastToInt` | Assets/KinectController.cs:145-146 | the `(int)` cast always lands in `int` range, is the truncation when that fits, and is `int.MinValue` for NaN or infinity |
| `ColorSpace.CastNearZero` | Assets/KinectController.cs:145-146 | every value strictly between -1 and 1, negative fractions included, casts to 0 |
| `ColorSpace.NonFiniteCastIsNegative` | Assets/KinectController.cs:145-151 | a NaN or infinite component casts to a negative index, which the bounds check rejects |
| `Compositor.Flatten` | Assets/KinectController.cs:177-180 | the texture layout has exactly four bytes per pixel |
| `Compositor.Unflatten` | Assets/KinectController.cs:59-60 | reading an RGBA32 buffer gives one pixel per four bytes |
| `Compositor.FlattenAt` | Assets/KinectController.cs:177-180 | pixel `i` occupies bytes `i*4+0 .. i*4+3` as red, green, blue, alpha |
| `Compositor.UnflattenAt` | Assets/KinectController.cs:154-156 | colour pixel `k` is read from bytes `k*4 .. k*4+3` |
| `Compositor.UnflattenFlatten` | Assets/KinectController.cs:177-180 | reading a laid-out texture gives back exactly the pixels written |
| `Compositor.FlattenUnflatten` | Assets/KinectController.cs:59-60 | every RGBA32 buffer is the layout of the pixels read from it |
| `Compositor.ColorIndexInBounds` | Assets/KinectController.cs:147-156 | index safety: an in-view column and row give `colorIndex*4 .. colorIndex*4+3` inside a buffer of `width*height*4` bytes |
| `Compositor.PixelOf` | Assets/KinectController.cs:138-174 | the per-pixel rule; its alpha is 0 exactly on background pixels and 255 on all others |
| `Compositor.BackgroundIsTransparent` | Assets/KinectController.cs:141-174 | body index 255 gives `(0,0,0,0)` whatever the point and the colour image |
| `Compositor.PersonInViewSamplesColor` | Assets/KinectController.cs:144-157 | a person pixel whose cast point is inside the colour image takes the RGB of colour pixel `width*colorY+colorX` with alpha 255 |
| `Compositor.PersonOutOfViewIsBlack` | Assets/KinectController.cs:150-165 | a person pixel whose cast point is negative or past the width or height is `(0,0,0,255)` |
| `Compositor.NonFinitePointIsBlack` | Assets/KinectController.cs:145-165 | a person pixel whose point has a NaN or infinite component is `(0,0,0,255)` |
| `Compositor.Frame` | Assets/KinectController.cs:136-181 | one output pixel per body-index pixel |
| `Compositor.Composited` | Assets/KinectController.cs:136-181 | one pass writes `|bodyIndex|*4` bytes |
| `Compositor.TextureHoldsFrame` | Assets/KinectController.cs:136-181 | completeness: read as RGBA32, the texture is exactly the per-pixel rule applied to every input pixel |
| `Compositor.AlphaIsPersonMask` | Assets/KinectController.cs:141-180 | texture byte `i*4+3` is 0 exactly when body index `i` is 255, and 255 exactly when it is not |
| `Compositor.TwoPixelExample` | Assets/KinectController.cs:136-181 | body index [255, 3], a 2x2 colour image and points (0,0), (1,1) give `[0,0,0,0]` then colour pixel 3's RGB with alpha 255 |
| `Compositor.NegativePointExamples` | Assets/KinectController.cs:145-165 | point (-1, 0) is black; point (-0.5, 0) truncates to (0, 0) and samples colour pixel 0 |
| `Acquisition.Acquire` | Assets/KinectController.cs:93-128 | each buffer after a cycle is either unchanged or wholly its own sub-frame, never a mixture |
| `Acquisition.NoNewFrameKeepsBuffers` | Assets/KinectController.cs:93-97 | with no reader or no combined frame, all three buffers are unchanged |
| `Acquisition.SubFramesAreIndependent` | Assets/KinectController.cs:99-127 | with a combined frame, each buffer is replaced exactly when its own sub-frame is present, independently of the other two |
| `Acquisition.AcquireKeepsSizes` | Assets/KinectController.cs:100-127 | a cycle keeps all three buffer lengths |
| `Acquisition.CyclesKeepLatestPerStream` | Assets/KinectController.cs:93-128 | after any run of cycles, each buffer holds the latest sub-frame of its own stream, or its contents from before the run |
| `Kinect.CopyFrameDataToArray` | Assets/KinectController.cs:105 | a copy replaces the whole destination buffer with the sub-frame |
| `Kinect.KinectSensor.GetDefault` | Assets/KinectController.cs:36 | the sensor handle, open or not |
| `Kinect.KinectSensor.Open` | Assets/KinectController.cs:68 | the sensor is open afterwards |
| `Kinect.KinectSensor.Close` | Assets/KinectController.cs:85 | the sensor is closed afterwards |
| `Kinect.MultiSourceFrameReader.Open` | Assets/KinectController.cs:39-41 | a new reader, not yet disposed |
| `Kinect.MultiSourceFrameReader.Dispose` | Assets/KinectController.cs:78 | the reader is disposed afterwards |
| `Kinect.KinectController.Start` | Assets/KinectController.cs:33-70 | fresh zero-filled buffers sized from the descriptions (body index `w*h`, colour `w*h*bytesPerPixel`, depth `w*h`, texture `w*h*4` at body-index size); a fresh reader; the sensor open |
| `Kinect.KinectController.OnDestroy` | Assets/KinectController.cs:73-88 | reader and sensor are null afterwards; a held reader is disposed and a held sensor closed; the buffers are untouched, so a repeated call changes nothing |
| `Kinect.KinectController.AcquireLatest` | Assets/KinectController.cs:93-128 | the new buffer contents are `Acquire` of the old ones; buffers are never reallocated and keep the sizes of `Start` |
| `Kinect.KinectController.Composite` | Assets/KinectController.cs:132-181 | the texture buffer becomes `Composited` of the current inputs, with no dependence on its old contents; read as RGBA32 it is the frame of per-pixel results |
| `Kinect.KinectController.Update` | Assets/KinectController.cs:91-181 | one cycle: the buffers follow `Acquire`, then the texture is `Composited` over the refreshed buffers and the mapping of the refreshed depth buffer |
| `Kinect.KinectController.RepeatCycleWithoutNewFrame` | Assets/KinectController.cs:93-181 | two cycles with no new frame keep the buffers and give byte-identical textures, computed from the stale buffers |

## Left out

- Kinect SDK objects are not modelled: `KinectSensor`, `MultiSourceFrameReader`, frame references and their scoped release. They are foreign code. The model keeps only the sensor's open flag and the reader's disposal. What a cycle acquired is a parameter of `Update`.
- The colour frame's conversion to RGBA (`CopyConvertedFrameDataToArray`) is foreign. A colour sub-frame arrives already converted.
- The coordinate mapper's registration algorithm is foreign. `mapDepthFrameToColorSpace` is a parameter, required only to give one point per depth sample.
- Floats are not modelled bit for bit. A point component is a real or "non-finite". The out-of-range cast result, which C# leaves unspecified, is fixed to `int.MinValue`.
- Unity rendering is out of scope: `Texture2D`, `LoadRawTextureData`, `Apply` and `RawImage` are UI and GPU upload. Only the RGBA32 byte layout of the texture is modelled.
- The per-frame allocation of `colorSpacePoints` is not modelled; it has no behavioural content.
- Kinect.KinectController.Start: assumes the colour description is RGBA, 4 bytes per pixel, and that depth and body index share a resolution. The code relies on both: it reads colour at `colorIndex*4`, and the mapper needs equal lengths.
- Kinect.KinectController.Start: computes buffer sizes as unbounded integers, so C# `int` overflow in the size products is not modelled. The Kinect resolutions are far below that bound.
- Kinect.KinectController.Composite: computes `colorIndex` as an unbounded integer. In C# it can wrap for out-of-view points, but it is then never used. For in-view points `colorIndex*4+2` is below `colorData.Length`, which is an `int`, so nothing wraps.
- Kinect.KinectController.Update: requires every present sub-frame to have its buffer's size. The SDK's copy would throw otherwise; that exception path is not modelled.
- Kinect.KinectController.OnDestroy: releases the reader before the sensor in the code, but its contract states only the final state, not this order.
- Unity calling `Update` or `OnDestroy` on an object whose `Start` never ran is not modelled. In the model, an object exists only after `Start`.
