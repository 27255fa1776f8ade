/**
 * The per-pixel compositing rule of the frame pipeline and the RGBA32 texture layout it
 * writes: every body-index pixel becomes transparent (no person), the colour sampled at its
 * mapped colour-space position (person, in view) or opaque black (person, out of view).
 */
module Compositor {
  import opened SensorTypes
  import opened ColorSpace

  /** The body-index value meaning "no tracked person at this depth pixel". */
  const NoPerson: byte := 255

  datatype Rgba = Rgba(r: byte, g: byte, b: byte, a: byte)

  const Transparent: Rgba := Rgba(0, 0, 0, 0)
  const OpaqueBlack: Rgba := Rgba(0, 0, 0, 255)

  /** The four bytes of one pixel in RGBA32 order. */
  function Bytes(p: Rgba): seq<byte> {
    [p.r, p.g, p.b, p.a]
  }

  /** Lays pixels out as RGBA32 bytes, pixel `i` at bytes `i*4 .. i*4+3`. */
  function Flatten(pixels: seq<Rgba>): (bytes: seq<byte>)
    ensures |bytes| == |pixels| * 4
  {
    if pixels == [] then [] else Bytes(pixels[0]) + Flatten(pixels[1..])
  }

  /** Reads RGBA32 bytes back as pixels, four bytes per pixel (how the colour image and the texture are read). */
  function Unflatten(bytes: seq<byte>): (pixels: seq<Rgba>)
    requires |bytes| % 4 == 0
    ensures |pixels| * 4 == |bytes|
  {
    if bytes == [] then [] else [Rgba(bytes[0], bytes[1], bytes[2], bytes[3])] + Unflatten(bytes[4..])
  }

  lemma {:induction false} FlattenAt(pixels: seq<Rgba>, i: nat)
    requires i < |pixels|
    ensures Flatten(pixels)[i * 4 + 0] == pixels[i].r
    ensures Flatten(pixels)[i * 4 + 1] == pixels[i].g
    ensures Flatten(pixels)[i * 4 + 2] == pixels[i].b
    ensures Flatten(pixels)[i * 4 + 3] == pixels[i].a
  {
    if i > 0 {
      FlattenAt(pixels[1..], i - 1);
      assert Flatten(pixels) == Bytes(pixels[0]) + Flatten(pixels[1..]);
      assert pixels[1..][i - 1] == pixels[i];
    }
  }

  lemma {:induction false} UnflattenAt(bytes: seq<byte>, i: nat)
    requires |bytes| % 4 == 0 && i < |bytes| / 4
    ensures |Unflatten(bytes)| == |bytes| / 4
    ensures Unflatten(bytes)[i] == Rgba(bytes[i * 4 + 0], bytes[i * 4 + 1], bytes[i * 4 + 2], bytes[i * 4 + 3])
  {
    if i > 0 {
      UnflattenAt(bytes[4..], i - 1);
    }
  }

  /** Reading a laid-out texture back gives the pixels that were laid out. */
  lemma {:induction false} UnflattenFlatten(pixels: seq<Rgba>)
    ensures Unflatten(Flatten(pixels)) == pixels
  {
    if pixels != [] {
      var bytes := Flatten(pixels);
      assert bytes[4..] == Flatten(pixels[1..]);
      UnflattenFlatten(pixels[1..]);
    }
  }

  /** Laying out the pixels read from a byte buffer gives that buffer back. */
  lemma {:induction false} FlattenUnflatten(bytes: seq<byte>)
    requires |bytes| % 4 == 0
    ensures Flatten(Unflatten(bytes)) == bytes
  {
    if bytes != [] {
      var pixels := Unflatten(bytes);
      assert pixels[1..] == Unflatten(bytes[4..]);
      FlattenUnflatten(bytes[4..]);
    }
  }

  /**
   * Index safety of the colour read: an in-view column and row address a whole RGBA
   * pixel of a `width` by `height` colour image.
   */
  lemma ColorIndexInBounds(colorX: int, colorY: int, width: nat, height: nat)
    requires 0 <= colorX < width && 0 <= colorY < height
    ensures 0 <= width * colorY + colorX < width * height
    ensures 0 <= (width * colorY + colorX) * 4 && (width * colorY + colorX) * 4 + 3 < width * height * 4
  {
    assert width * colorY <= width * (height - 1) by {
      MulMonotone(width, colorY, height - 1);
    }
  }

  lemma MulMonotone(a: nat, b: nat, c: nat)
    requires b <= c
    ensures a * b <= a * c
  {
  }

  /**
   * The colour of one output pixel, given its body-index value, its mapped colour-space
   * point and the RGBA colour image of `width` by `height` pixels.
   */
  function PixelOf(bodyIndex: byte, point: ColorSpacePoint, colorData: seq<byte>, width: nat, height: nat): (p: Rgba)
    requires |colorData| == width * height * 4
    ensures p.a == 0 <==> bodyIndex == NoPerson
    ensures p.a == 0 || p.a == 255
  {
    if bodyIndex != NoPerson then
      var colorX := CastToInt(point.x);
      var colorY := CastToInt(point.y);
      var colorIndex := width * colorY + colorX;
      if 0 <= colorX < width && 0 <= colorY < height then
        ColorIndexInBounds(colorX, colorY, width, height);
        Rgba(colorData[colorIndex * 4 + 0], colorData[colorIndex * 4 + 1], colorData[colorIndex * 4 + 2], 255)
      else
        OpaqueBlack
    else
      Transparent
  }

  /** A background pixel is fully transparent, whatever the colour image and the mapped point. */
  lemma BackgroundIsTransparent(bodyIndex: byte, point: ColorSpacePoint, colorData: seq<byte>, width: nat, height: nat)
    requires |colorData| == width * height * 4
    requires bodyIndex == NoPerson
    ensures PixelOf(bodyIndex, point, colorData, width, height) == Transparent
  {
  }

  /**
   * A person pixel whose cast point lies in the colour image takes the red, green and blue
   * of the colour image's pixel at that column and row (row-major) and is opaque.
   */
  lemma PersonInViewSamplesColor(bodyIndex: byte, point: ColorSpacePoint, colorData: seq<byte>, width: nat, height: nat)
    requires |colorData| == width * height * 4
    requires bodyIndex != NoPerson
    requires 0 <= CastToInt(point.x) < width && 0 <= CastToInt(point.y) < height
    ensures width * CastToInt(point.y) + CastToInt(point.x) < |Unflatten(colorData)| == width * height
    ensures var c := Unflatten(colorData)[width * CastToInt(point.y) + CastToInt(point.x)];
            PixelOf(bodyIndex, point, colorData, width, height) == Rgba(c.r, c.g, c.b, 255)
  {
    var colorX, colorY := CastToInt(point.x), CastToInt(point.y);
    ColorIndexInBounds(colorX, colorY, width, height);
    UnflattenAt(colorData, width * colorY + colorX);
  }

  /** A person pixel whose cast point is negative or past the colour image's width or height is opaque black. */
  lemma PersonOutOfViewIsBlack(bodyIndex: byte, point: ColorSpacePoint, colorData: seq<byte>, width: nat, height: nat)
    requires |colorData| == width * height * 4
    requires bodyIndex != NoPerson
    requires !(0 <= CastToInt(point.x) < width && 0 <= CastToInt(point.y) < height)
    ensures PixelOf(bodyIndex, point, colorData, width, height) == OpaqueBlack
  {
  }

  /** A person pixel whose mapped point has a NaN or infinite component is opaque black. */
  lemma NonFinitePointIsBlack(bodyIndex: byte, point: ColorSpacePoint, colorData: seq<byte>, width: nat, height: nat)
    requires |colorData| == width * height * 4
    requires bodyIndex != NoPerson
    requires point.x.NonFinite? || point.y.NonFinite?
    ensures PixelOf(bodyIndex, point, colorData, width, height) == OpaqueBlack
  {
    NonFiniteCastIsNegative(if point.x.NonFinite? then point.x else point.y);
  }

  /** The pixels of one frame, one per body-index pixel, in body-index order. */
  function Frame(bodyIndex: seq<byte>, points: seq<ColorSpacePoint>, colorData: seq<byte>, width: nat, height: nat): (pixels: seq<Rgba>)
    requires |points| == |bodyIndex| && |colorData| == width * height * 4
    ensures |pixels| == |bodyIndex|
  {
    seq(|bodyIndex|, i requires 0 <= i < |bodyIndex| => PixelOf(bodyIndex[i], points[i], colorData, width, height))
  }

  /** The texture bytes one compositing pass produces from its inputs alone. */
  function Composited(bodyIndex: seq<byte>, points: seq<ColorSpacePoint>, colorData: seq<byte>, width: nat, height: nat): (texture: seq<byte>)
    requires |points| == |bodyIndex| && |colorData| == width * height * 4
    ensures |texture| == |bodyIndex| * 4
  {
    Flatten(Frame(bodyIndex, points, colorData, width, height))
  }

  /**
   * Completeness: read as RGBA32, the composited texture holds exactly one pixel per
   * body-index pixel, pixel `i` given by the per-pixel rule on input `i`.
   */
  lemma TextureHoldsFrame(bodyIndex: seq<byte>, points: seq<ColorSpacePoint>, colorData: seq<byte>, width: nat, height: nat)
    requires |points| == |bodyIndex| && |colorData| == width * height * 4
    ensures var texture := Composited(bodyIndex, points, colorData, width, height);
            |texture| % 4 == 0 && Unflatten(texture) == Frame(bodyIndex, points, colorData, width, height)
  {
    UnflattenFlatten(Frame(bodyIndex, points, colorData, width, height));
  }

  /** Alpha channel of the texture is the person mask: byte `i*4+3` is 0 exactly on background pixels, 255 elsewhere. */
  lemma AlphaIsPersonMask(bodyIndex: seq<byte>, points: seq<ColorSpacePoint>, colorData: seq<byte>, width: nat, height: nat, i: nat)
    requires |points| == |bodyIndex| && |colorData| == width * height * 4
    requires i < |bodyIndex|
    ensures var texture := Composited(bodyIndex, points, colorData, width, height);
            (texture[i * 4 + 3] == 0 <==> bodyIndex[i] == NoPerson) &&
            (texture[i * 4 + 3] == 255 <==> bodyIndex[i] != NoPerson)
  {
    FlattenAt(Frame(bodyIndex, points, colorData, width, height), i);
  }

  /**
   * Worked example: body index [255, 3] over a 2 by 2 colour image gives a transparent
   * first pixel and, for point (1, 1), the colour of colour pixel 2*1+1 = 3, opaque.
   */
  lemma TwoPixelExample()
    ensures
      var colorData: seq<byte> := [10, 11, 12, 13, 20, 21, 22, 23, 30, 31, 32, 33, 40, 41, 42, 43];
      var points := [ColorSpacePoint(Finite(0.0), Finite(0.0)), ColorSpacePoint(Finite(1.0), Finite(1.0))];
      Composited([255, 3], points, colorData, 2, 2) == [0, 0, 0, 0, 40, 41, 42, 255]
  {
    var colorData: seq<byte> := [10, 11, 12, 13, 20, 21, 22, 23, 30, 31, 32, 33, 40, 41, 42, 43];
    var points := [ColorSpacePoint(Finite(0.0), Finite(0.0)), ColorSpacePoint(Finite(1.0), Finite(1.0))];
    var frame := Frame([255, 3], points, colorData, 2, 2);
    assert CastToInt(Finite(1.0)) == 1;
    assert frame == [Transparent, Rgba(40, 41, 42, 255)];
    assert Flatten(frame) == Bytes(frame[0]) + Flatten(frame[1..]);
  }

  /** Worked example: point (-1, 0) on a person pixel is out of view; point (-0.5, 0) casts to (0, 0) and is sampled. */
  lemma NegativePointExamples(colorData: seq<byte>)
    requires |colorData| == 2 * 2 * 4
    ensures PixelOf(3, ColorSpacePoint(Finite(-1.0), Finite(0.0)), colorData, 2, 2) == OpaqueBlack
    ensures PixelOf(3, ColorSpacePoint(Finite(-0.5), Finite(0.0)), colorData, 2, 2) == Rgba(colorData[0], colorData[1], colorData[2], 255)
  {
    assert CastToInt(Finite(-1.0)) == -1;
    CastNearZero(-0.5);
    CastNearZero(0.0);
  }
}
