/** The closed set of on-disk pixel formats of a Valve Texture Format file,
    their `i16` discriminants, and the channel layout each name spells out. */
module Formats {

  /** A signed 16-bit integer, the representation type of `ImageFormat`. */
  type i16 = x: int | -0x8000 <= x < 0x8000

  /** An unsigned 16-bit integer, the type of a texture's width and height. */
  type u16 = x: int | 0 <= x < 0x1_0000

  datatype ImageFormat =
    | None
    | Rgba8888
    | Abgr8888
    | Rgb888
    | Bgr888
    | Rgb565
    | I8
    | Ia88
    | P8
    | A8
    | Rgb888Bluescreen
    | Bgr888Bluescreen
    | Argb8888
    | Bgra8888
    | Dxt1
    | Dxt3
    | Dxt5
    | Bgrx8888
    | Bgr565
    | Bgrx5551
    | Bgra4444
    | Dxt1Onebitalpha
    | Bgra5551
    | Uv88
    | Uvwq8888
    | Rgba16161616f
    | Rgba16161616
    | Uvlx8888

  /** Every format, in declaration order. */
  const Declared: seq<ImageFormat> := [
    None, Rgba8888, Abgr8888, Rgb888, Bgr888, Rgb565, I8, Ia88, P8, A8,
    Rgb888Bluescreen, Bgr888Bluescreen, Argb8888, Bgra8888, Dxt1, Dxt3, Dxt5,
    Bgrx8888, Bgr565, Bgrx5551, Bgra4444, Dxt1Onebitalpha, Bgra5551, Uv88,
    Uvwq8888, Rgba16161616f, Rgba16161616, Uvlx8888
  ]

  /** The lowest and highest discriminants. */
  const MinCode: i16 := -1
  const MaxCode: i16 := 26

  /** The `repr(i16)` discriminant of a format: `None` is -1, `Rgba8888` is 0,
      and every later variant is one more than the variant before it. */
  function Code(f: ImageFormat): (c: i16)
    ensures MinCode <= c <= MaxCode
  {
    match f
    case None => -1
    case Rgba8888 => 0
    case Abgr8888 => 1
    case Rgb888 => 2
    case Bgr888 => 3
    case Rgb565 => 4
    case I8 => 5
    case Ia88 => 6
    case P8 => 7
    case A8 => 8
    case Rgb888Bluescreen => 9
    case Bgr888Bluescreen => 10
    case Argb8888 => 11
    case Bgra8888 => 12
    case Dxt1 => 13
    case Dxt3 => 14
    case Dxt5 => 15
    case Bgrx8888 => 16
    case Bgr565 => 17
    case Bgrx5551 => 18
    case Bgra4444 => 19
    case Dxt1Onebitalpha => 20
    case Bgra5551 => 21
    case Uv88 => 22
    case Uvwq8888 => 23
    case Rgba16161616f => 24
    case Rgba16161616 => 25
    case Uvlx8888 => 26
  }

  /** `TryFromPrimitive` for `i16`: succeeds exactly on the declared
      discriminants and yields the variant carrying that discriminant. */
  function FromCode(c: i16): (r: Conversion)
    ensures r.Converted? <==> MinCode <= c <= MaxCode
    ensures r.Converted? ==> Code(r.format) == c
    ensures r.Unknown? ==> r.code == c
  {
    if MinCode <= c <= MaxCode then Converted(Declared[c + 1]) else Unknown(c)
  }

  /** The outcome of converting a raw code: the format, or the rejected
      number (as `TryFromPrimitiveError` carries it). */
  datatype Conversion = Converted(format: ImageFormat) | Unknown(code: i16)

  /** The declaration order fixes the discriminants: the variant at position
      `i` carries code `i - 1`, and every variant appears in the list once. */
  lemma CodesFollowDeclarationOrder()
    ensures |Declared| == MaxCode - MinCode + 1
    ensures forall i :: 0 <= i < |Declared| ==> Code(Declared[i]) == i - 1
    ensures forall f: ImageFormat :: f in Declared
  {
    forall i | 0 <= i < |Declared| ensures Code(Declared[i]) == i - 1 {
      assert FromCode(i - 1).format == Declared[i];
    }
    forall f: ImageFormat ensures f in Declared {
      assert Declared[Code(f) + 1] == f;
    }
  }

  /** Converting a format to its code and back gives the format again. */
  lemma FromCodeOfCode(f: ImageFormat)
    ensures FromCode(Code(f)) == Converted(f)
  {
    CodesFollowDeclarationOrder();
    assert Declared[Code(f) + 1] == f;
  }

  /** Converting an accepted code to a format and back gives the code again. */
  lemma CodeOfFromCode(c: i16)
    requires MinCode <= c <= MaxCode
    ensures FromCode(c).Converted? && Code(FromCode(c).format) == c
  {
  }

  /** The four block-compressed (S3TC) formats. */
  predicate IsBlockCompressed(f: ImageFormat) {
    f in {Dxt1, Dxt3, Dxt5, Dxt1Onebitalpha}
  }

  /** The bit widths of the channels named by an uncompressed format:
      `Rgb565` is red 5, green 6, blue 5; `Rgba16161616` is four 16-bit
      channels; `P8` is one 8-bit palette index. `None` and the
      block-compressed formats have no per-pixel layout. */
  function ChannelBits(f: ImageFormat): (bits: seq<nat>)
    ensures bits == [] <==> f == None || IsBlockCompressed(f)
  {
    match f
    case None => []
    case Rgba8888 => [8, 8, 8, 8]
    case Abgr8888 => [8, 8, 8, 8]
    case Rgb888 => [8, 8, 8]
    case Bgr888 => [8, 8, 8]
    case Rgb565 => [5, 6, 5]
    case I8 => [8]
    case Ia88 => [8, 8]
    case P8 => [8]
    case A8 => [8]
    case Rgb888Bluescreen => [8, 8, 8]
    case Bgr888Bluescreen => [8, 8, 8]
    case Argb8888 => [8, 8, 8, 8]
    case Bgra8888 => [8, 8, 8, 8]
    case Dxt1 => []
    case Dxt3 => []
    case Dxt5 => []
    case Bgrx8888 => [8, 8, 8, 8]
    case Bgr565 => [5, 6, 5]
    case Bgrx5551 => [5, 5, 5, 1]
    case Bgra4444 => [4, 4, 4, 4]
    case Dxt1Onebitalpha => []
    case Bgra5551 => [5, 5, 5, 1]
    case Uv88 => [8, 8]
    case Uvwq8888 => [8, 8, 8, 8]
    case Rgba16161616f => [16, 16, 16, 16]
    case Rgba16161616 => [16, 16, 16, 16]
    case Uvlx8888 => [8, 8, 8, 8]
  }

  function Sum(s: seq<nat>): nat {
    if s == [] then 0 else s[0] + Sum(s[1..])
  }

  /** Bits one pixel occupies on disk in an uncompressed format. */
  function BitsPerPixel(f: ImageFormat): nat {
    Sum(ChannelBits(f))
  }
}
