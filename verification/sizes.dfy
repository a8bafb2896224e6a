/** `ImageFormat::frame_size`: how many bytes one `width` x `height` frame
    occupies on disk. */
module Sizes {
  import opened Formats
  import opened Errors

  /** The formats that have a size rule. */
  const Sized: set<ImageFormat> := {
    None, Rgba8888, Abgr8888, Rgb888, Bgr888, Rgb565, I8, Ia88, A8,
    Argb8888, Bgra8888, Dxt1, Dxt5, Rgba16161616f, Rgba16161616
  }

  /** Number of 4-pixel block rows (or columns) needed to cover `n` pixels. */
  function BlocksCovering(n: nat): (b: nat)
    ensures n <= 4 * b < n + 4
  {
    (n + 3) / 4
  }

  /** Bytes per 4x4 block in S3TC: 8 for BC1 (DXT1, with or without 1-bit
      alpha), 16 for BC2 and BC3 (DXT3, DXT5). */
  function BlockBytes(f: ImageFormat): nat
    requires IsBlockCompressed(f)
  {
    if f == Dxt1 || f == Dxt1Onebitalpha then 8 else 16
  }

  /** Byte size of one frame. Arithmetic is unbounded here; the source
      computes in `u32` (see `OverflowFreeExactly`). */
  function FrameSize(f: ImageFormat, width: nat, height: nat): (r: Result<nat>)
    ensures r.Ok? <==> f in Sized
    ensures r.Err? ==> r.error == UnsupportedImageFormat(f)
    ensures f == None ==> r == Ok(0)
    ensures r.Ok? && IsBlockCompressed(f) ==>
      r.value == BlocksCovering(width) * BlocksCovering(height) * BlockBytes(f)
  {
    match f
    case None => Ok(0)
    case Rgba8888 => Ok(width * height * 4)
    case Abgr8888 => Ok(width * height * 4)
    case Rgb888 => Ok(width * height * 3)
    case Bgr888 => Ok(width * height * 3)
    case Rgb565 => Ok(width * height * 2)
    case I8 => Ok(width * height * 1)
    case Ia88 => Ok(width * height * 2)
    case A8 => Ok(width * height)
    case Argb8888 => Ok(width * height * 4)
    case Bgra8888 => Ok(width * height * 4)
    case Dxt1 => Ok(((width + 3) / 4) * ((height + 3) / 4) * 8)
    case Dxt5 => Ok(((width + 3) / 4) * ((height + 3) / 4) * 16)
    case Rgba16161616f => Ok(width * height * 8)
    case Rgba16161616 => Ok(width * height * 8)
    case _ => Err(UnsupportedImageFormat(f))
  }

  /** Every uncompressed size rule is the pixel count times the bits the
      format's channels occupy, in bytes. */
  lemma UncompressedSizeMatchesLayout(f: ImageFormat, width: nat, height: nat)
    requires f in Sized && !IsBlockCompressed(f)
    ensures FrameSize(f, width, height).value * 8 == width * height * BitsPerPixel(f)
  {
    var bits := ChannelBits(f);
    if bits != [] {
      assert Sum(bits) == bits[0] + Sum(bits[1..]);
      if |bits| >= 2 {
        assert Sum(bits[1..]) == bits[1] + Sum(bits[2..]);
        if |bits| >= 3 {
          assert Sum(bits[2..]) == bits[2] + Sum(bits[3..]);
        }
      }
    }
  }

  /** A single pixel of a block-compressed format occupies exactly one block,
      and an empty frame occupies nothing in any format. */
  lemma BlockBoundaries(f: ImageFormat, width: nat, height: nat)
    requires f in Sized
    ensures IsBlockCompressed(f) ==> FrameSize(f, 1, 1) == Ok(BlockBytes(f))
    ensures width == 0 || height == 0 ==> FrameSize(f, width, height) == Ok(0)
  {
  }

  /** The formats the source names but has no size rule for, although most
      have a fixed per-pixel layout, and although `Dxt3` and
      `Dxt1Onebitalpha` have a decoder. */
  lemma UnsizedFormats(f: ImageFormat, width: nat, height: nat)
    requires f in {P8, Rgb888Bluescreen, Bgr888Bluescreen, Dxt3, Bgrx8888,
                   Bgr565, Bgrx5551, Bgra4444, Dxt1Onebitalpha, Bgra5551,
                   Uv88, Uvwq8888, Uvlx8888}
    ensures FrameSize(f, width, height) == Err(UnsupportedImageFormat(f))
  {
  }

  const U32Limit: nat := 0x1_0000_0000
  const U16Max: nat := 0xFFFF

  /** The `u32` computation of `frame_size` never overflows for any pair of
      `u16` dimensions. */
  ghost predicate NeverOverflowsU32(f: ImageFormat) {
    forall width: nat, height: nat ::
      width <= U16Max && height <= U16Max && FrameSize(f, width, height).Ok? ==>
        FrameSize(f, width, height).value < U32Limit
  }

  lemma MulMonotone(a: nat, b: nat, c: nat, d: nat)
    requires a <= c && b <= d
    ensures a * b <= c * d
  {
    assert a * b <= c * b;
  }

  /** Only the one-byte formats, `None`, `Dxt1` and the formats without a size
      rule are overflow-free; every other rule exceeds `u32` at 65535 x 65535
      (for `Dxt5` the product is exactly 2^32). */
  lemma OverflowFreeExactly(f: ImageFormat)
    ensures NeverOverflowsU32(f) <==> f in {None, I8, A8, Dxt1} || f !in Sized
  {
    if f in {None, I8, A8, Dxt1} || f !in Sized {
      forall width: nat, height: nat | width <= U16Max && height <= U16Max &&
        FrameSize(f, width, height).Ok?
        ensures FrameSize(f, width, height).value < U32Limit
      {
        if f == Dxt1 {
          MulMonotone(BlocksCovering(width), BlocksCovering(height), 16384, 16384);
        } else if f != None {
          MulMonotone(width, height, U16Max, U16Max);
        }
      }
    } else {
      var big := FrameSize(f, U16Max, U16Max);
      assert big.Ok?;
      if f == Dxt5 {
        assert BlocksCovering(U16Max) == 16384;
      }
      assert big.value >= U32Limit;
    }
  }
}
