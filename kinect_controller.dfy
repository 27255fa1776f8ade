/**
 * The Unity behaviour that owns the sensor session and its buffers: `Start` sizes the
 * buffers once, `Update` runs one acquire-then-composite cycle in place, `OnDestroy`
 * releases the reader and the sensor.
 */
module Kinect {
  import opened Wrappers
  import opened SensorTypes
  import opened ColorSpace
  import opened Compositor
  import opened Acquisition

  /** The sensor device handle; only whether it is open is modelled. */
  class KinectSensor {
    var isOpen: bool

    constructor GetDefault(isOpen: bool)
      ensures this.isOpen == isOpen
    {
      this.isOpen := isOpen;
    }

    method Open()
      modifies this
      ensures isOpen
    {
      isOpen := true;
    }

    method Close()
      modifies this
      ensures !isOpen
    {
      isOpen := false;
    }
  }

  /** The multi-source frame reader; only whether it has been disposed is modelled. */
  class MultiSourceFrameReader {
    var disposed: bool

    constructor Open()
      ensures !disposed
    {
      disposed := false;
    }

    method Dispose()
      modifies this
      ensures disposed
    {
      disposed := true;
    }
  }

  /** `CopyFrameDataToArray`: the whole sub-frame replaces the buffer's contents. */
  method CopyFrameDataToArray<T>(data: seq<T>, buffer: array<T>)
    requires |data| == buffer.Length
    modifies buffer
    ensures buffer[..] == data
  {
    forall i | 0 <= i < buffer.Length {
      buffer[i] := data[i];
    }
  }

  class KinectController {
    var sensor: KinectSensor?
    var reader: MultiSourceFrameReader?

    const bodyIndexDescription: FrameDescription
    var bodyIndexData: array<byte>

    const colorDescription: FrameDescription
    var colorData: array<byte>

    const depthDescription: FrameDescription
    var depthData: array<ushort>

    var textureData: array<byte>

    /** Buffer sizes fixed by `Start`; depth and body index share one resolution. */
    ghost predicate Valid()
      reads this
    {
      bodyIndexData.Length == bodyIndexDescription.width * bodyIndexDescription.height &&
      colorDescription.bytesPerPixel == RgbaBytesPerPixel &&
      colorData.Length == colorDescription.width * colorDescription.height * colorDescription.bytesPerPixel &&
      depthData.Length == depthDescription.width * depthDescription.height &&
      depthData.Length == bodyIndexData.Length &&
      textureData.Length == bodyIndexDescription.width * bodyIndexDescription.height * 4 &&
      bodyIndexData != colorData && bodyIndexData != textureData && colorData != textureData
    }

    /** The contents of the three raw buffers. */
    ghost function RawBuffers(): Buffers
      reads this, bodyIndexData, colorData, depthData
    {
      Buffers(bodyIndexData[..], colorData[..], depthData[..])
    }

    /**
     * Opens the reader, allocates every buffer once (zero-filled) from the stream
     * descriptions, and opens the sensor unless it is already open.
     */
    constructor Start(kinect: KinectSensor, bodyIndexDescription: FrameDescription,
                      colorDescription: FrameDescription, depthDescription: FrameDescription)
      requires colorDescription.bytesPerPixel == RgbaBytesPerPixel
      requires depthDescription.width * depthDescription.height == bodyIndexDescription.width * bodyIndexDescription.height
      modifies kinect
      ensures Valid()
      ensures sensor == kinect && kinect.isOpen
      ensures reader != null && fresh(reader) && !reader.disposed
      ensures this.bodyIndexDescription == bodyIndexDescription
      ensures this.colorDescription == colorDescription
      ensures this.depthDescription == depthDescription
      ensures fresh(bodyIndexData) && fresh(colorData) && fresh(depthData) && fresh(textureData)
      ensures forall i :: 0 <= i < bodyIndexData.Length ==> bodyIndexData[i] == 0
      ensures forall i :: 0 <= i < colorData.Length ==> colorData[i] == 0
      ensures forall i :: 0 <= i < depthData.Length ==> depthData[i] == 0
      ensures forall i :: 0 <= i < textureData.Length ==> textureData[i] == 0
    {
      sensor := kinect;
      reader := new MultiSourceFrameReader.Open();
      this.bodyIndexDescription := bodyIndexDescription;
      bodyIndexData := new byte[bodyIndexDescription.width * bodyIndexDescription.height](_ => 0);
      this.colorDescription := colorDescription;
      colorData := new byte[colorDescription.width * colorDescription.height * colorDescription.bytesPerPixel](_ => 0);
      this.depthDescription := depthDescription;
      depthData := new ushort[depthDescription.width * depthDescription.height](_ => 0);
      textureData := new byte[bodyIndexDescription.width * bodyIndexDescription.height * 4](_ => 0);
      new;
      if !kinect.isOpen {
        kinect.Open();
      }
    }

    /** Releases the reader, then the sensor; each only if still held, so a repeated call does nothing. */
    method OnDestroy()
      modifies this`reader, this`sensor, reader, sensor
      ensures reader == null && sensor == null
      ensures old(reader) != null ==> old(reader).disposed
      ensures old(sensor) != null ==> !old(sensor).isOpen
      ensures old(Valid()) ==> Valid()
    {
      if reader != null {
        reader.Dispose();
        reader := null;
      }
      if sensor != null {
        sensor.Close();
        sensor := null;
      }
    }

    /**
     * The acquisition step of a cycle: with a reader and a combined frame, every present
     * sub-frame replaces its buffer wholesale; everything else is left as it was.
     */
    method AcquireLatest(latest: Option<MultiSourceFrame>)
      requires Valid()
      requires latest.Some? ==> Fits(latest.value, RawBuffers())
      modifies bodyIndexData, colorData, depthData
      ensures Valid()
      ensures RawBuffers() == Acquire(old(RawBuffers()), reader != null, latest)
    {
      if reader != null {
        if latest.Some? {
          var frame := latest.value;
          if frame.bodyIndex.Some? {
            CopyFrameDataToArray(frame.bodyIndex.value, bodyIndexData);
          }
          if frame.color.Some? {
            CopyFrameDataToArray(frame.color.value, colorData);
          }
          if frame.depth.Some? {
            CopyFrameDataToArray(frame.depth.value, depthData);
          }
        }
      }
    }

    /**
     * The compositing step of a cycle: every pixel of the texture buffer is rewritten from
     * the body index, the mapped point and the colour image alone.
     */
    method Composite(colorSpacePoints: seq<ColorSpacePoint>)
      requires Valid()
      requires |colorSpacePoints| == bodyIndexData.Length
      modifies textureData
      ensures Valid()
      ensures textureData[..] == Composited(bodyIndexData[..], colorSpacePoints, colorData[..], colorDescription.width, colorDescription.height)
      ensures Unflatten(textureData[..]) == Frame(bodyIndexData[..], colorSpacePoints, colorData[..], colorDescription.width, colorDescription.height)
    {
      var colorWidth, colorHeight := colorDescription.width, colorDescription.height;
      ghost var frame := Frame(bodyIndexData[..], colorSpacePoints, colorData[..], colorWidth, colorHeight);
      ghost var texture := Flatten(frame);
      for i := 0 to bodyIndexData.Length
        invariant forall j :: 0 <= j < i * 4 ==> textureData[j] == texture[j]
      {
        var r: byte, g: byte, b: byte, a: byte;
        if bodyIndexData[i] != NoPerson {
          var point := colorSpacePoints[i];
          var colorX := CastToInt(point.x);
          var colorY := CastToInt(point.y);
          var colorIndex := colorWidth * colorY + colorX;
          if 0 <= colorX < colorWidth && 0 <= colorY < colorHeight {
            ColorIndexInBounds(colorX, colorY, colorWidth, colorHeight);
            r := colorData[colorIndex * 4 + 0];
            g := colorData[colorIndex * 4 + 1];
            b := colorData[colorIndex * 4 + 2];
            a := 255;
          } else {
            r, g, b, a := 0, 0, 0, 255;
          }
        } else {
          r, g, b, a := 0, 0, 0, 0;
        }
        FlattenAt(frame, i);
        textureData[i * 4 + 0] := r;
        textureData[i * 4 + 1] := g;
        textureData[i * 4 + 2] := b;
        textureData[i * 4 + 3] := a;
      }
      assert textureData[..] == texture;
      UnflattenFlatten(frame);
    }

    /**
     * One frame: acquire whatever sub-frames are ready, map the (possibly stale) depth
     * buffer into colour space, and composite the texture from the current buffers.
     */
    method Update(latest: Option<MultiSourceFrame>, mapDepthFrameToColorSpace: seq<ushort> -> seq<ColorSpacePoint>)
      requires Valid()
      requires latest.Some? ==> Fits(latest.value, RawBuffers())
      requires forall depth :: |mapDepthFrameToColorSpace(depth)| == |depth|
      modifies bodyIndexData, colorData, depthData, textureData
      ensures Valid()
      ensures RawBuffers() == Acquire(old(RawBuffers()), reader != null, latest)
      ensures textureData[..] == Composited(bodyIndexData[..], mapDepthFrameToColorSpace(depthData[..]), colorData[..],
                                            colorDescription.width, colorDescription.height)
    {
      AcquireLatest(latest);
      var colorSpacePoints := mapDepthFrameToColorSpace(depthData[..]);
      Composite(colorSpacePoints);
    }

    /**
     * Stale-frame tolerance: with nothing new from the reader, a cycle keeps the buffers,
     * and a second such cycle reproduces the first one's texture byte for byte.
     */
    method RepeatCycleWithoutNewFrame(mapDepthFrameToColorSpace: seq<ushort> -> seq<ColorSpacePoint>)
      requires Valid()
      requires forall depth :: |mapDepthFrameToColorSpace(depth)| == |depth|
      modifies bodyIndexData, colorData, depthData, textureData
      ensures Valid()
      ensures RawBuffers() == old(RawBuffers())
      ensures textureData[..] == Composited(old(bodyIndexData[..]), mapDepthFrameToColorSpace(old(depthData[..])), old(colorData[..]),
                                            colorDescription.width, colorDescription.height)
    {
      Update(None, mapDepthFrameToColorSpace);
      ghost var first := textureData[..];
      Update(None, mapDepthFrameToColorSpace);
      assert textureData[..] == first;
    }
  }
}
