/** The decoder as its match arms evidently intend it: every DXT arm reachable,
    B,G,R pixels swapped per 3-byte pixel, and B,G,R,A pixels kept as RGBA8.
    `Image.Decode` models the code as written; the lemmas at the end of this
    module show where the two differ. */
module Corrected {
  import opened Formats
  import opened Errors
  import opened Sizes
  import opened Swizzle
  import opened Image

  /** `frame_size` with the two missing block-compressed arms: `Dxt3` in
      16-byte blocks and `Dxt1Onebitalpha` in 8-byte blocks. */
  function FrameSizeFixed(f: ImageFormat, width: nat, height: nat): (r: Result<nat>)
    ensures r.Ok? <==> f in Sized || IsBlockCompressed(f)
    ensures r.Ok? && IsBlockCompressed(f) ==>
      r.value == BlocksCovering(width) * BlocksCovering(height) * BlockBytes(f)
    ensures !IsBlockCompressed(f) ==> r == FrameSize(f, width, height)
  {
    match f
    case Dxt3 => Ok(((width + 3) / 4) * ((height + 3) / 4) * 16)
    case Dxt1Onebitalpha => Ok(((width + 3) / 4) * ((height + 3) / 4) * 8)
    case _ => FrameSize(f, width, height)
  }

  /** B,G,R to R,G,B: swaps the first and third byte of every 3-byte pixel. */
  function ConvertBgr(s: seq<bv8>): (r: seq<bv8>)
    ensures |r| == |s|
  {
    ChunkSwap(s, 3)
  }

  /** Every whole pixel B,G,R becomes R,G,B. */
  lemma ConvertBgrPixels(s: seq<bv8>, p: nat)
    requires p < |s| / 3
    ensures ConvertBgr(s)[3 * p..3 * p + 3] == [s[3 * p + 2], s[3 * p + 1], s[3 * p]]
  {
    var r := ConvertBgr(s);
    var n := |s|;
    assert SwapSource(3 * p, n, 3) == 3 * p + 2;
    assert SwapSource(3 * p + 1, n, 3) == 3 * p + 1;
    assert SwapSource(3 * p + 2, n, 3) == 3 * p;
    assert r[3 * p..3 * p + 3] == [r[3 * p], r[3 * p + 1], r[3 * p + 2]];
  }

  /** The formats the corrected decoder turns into an image. */
  const FixedDecodable: set<ImageFormat> :=
    {Dxt1, Dxt1Onebitalpha, Dxt3, Dxt5, Rgba8888, Rgb888, Bgr888, Bgra8888}

  /** The layout tag the corrected decoder gives each decodable format. */
  function FixedLayout(f: ImageFormat): PixelLayout {
    if f in {Rgb888, Bgr888} then Rgb8 else Rgba8
  }

  /** The frame located with the corrected size rule. */
  function GetFrameFixed<H>(img: VTFImage<H>, env: Collaborators<H>, frame: nat): (r: Result<seq<bv8>>)
    ensures r.Ok? ==>
      && FrameSizeFixed(img.format, img.width, img.height).Ok?
      && |r.value| == FrameSizeFixed(img.format, img.width, img.height).value
  {
    LocateFrame(img, env, frame, FrameSizeFixed(img.format, img.width, img.height))
  }

  /** `decode` with the three corrections. Whatever it returns, the buffer
      holds exactly one pixel's worth of bytes per pixel of the tagged layout. */
  function DecodeFixed<H>(img: VTFImage<H>, env: Collaborators<H>, frame: nat): (r: Result<DynamicImage>)
    ensures r.Ok? ==> img.format in FixedDecodable
    ensures r.Ok? ==>
      && r.value.layout == FixedLayout(img.format)
      && r.value.width == img.width && r.value.height == img.height
      && |r.value.data| == img.width * img.height * r.value.layout.Channels()
    ensures GetFrameFixed(img, env, frame).Ok? && img.format in FixedDecodable ==>
      (r.Ok? <==> env.fromRaw(img.width, img.height, FixedLayout(img.format).Channels(),
                              img.width * img.height * FixedLayout(img.format).Channels()))
    ensures r.Ok? && img.format == Bgr888 ==>
      && GetFrameFixed(img, env, frame).Ok?
      && r.value.data == ConvertBgr(GetFrameFixed(img, env, frame).value)
  {
    var bytes :- GetFrameFixed(img, env, frame);
    if img.format in FixedDecodable then
      ImageFromBuffer(img, env, FixedPixels(img, env, bytes), FixedLayout(img.format))
    else
      Err(UnsupportedImageFormat(img.format))
  }

  /** The canonical channel bytes of a located frame of a decodable format. */
  function FixedPixels<H>(img: VTFImage<H>, env: Collaborators<H>, bytes: seq<bv8>): (r: seq<bv8>)
    requires img.format in FixedDecodable
    requires |bytes| == FrameSizeFixed(img.format, img.width, img.height).value
    ensures |r| == img.width * img.height * FixedLayout(img.format).Channels()
  {
    if IsBlockCompressed(img.format) then DecodeDxt(img, env, bytes, DxtVariant(img.format))
    else if img.format == Bgr888 then ConvertBgr(bytes)
    else if img.format == Bgra8888 then ConvertBgra(bytes)
    else bytes
  }

  /** As written: a 1 x 1 BGR888 frame B,G,R is handed over unchanged as an
      RGB8 pixel, so blue lands in the red channel; the 4-byte chunk swap
      never touches a 3-byte buffer. */
  lemma Bgr888PixelNotSwapped<H>(img: VTFImage<H>, env: Collaborators<H>, frame: nat)
    requires img.format == Bgr888 && img.width == 1 && img.height == 1
    requires GetFrame(img, env, frame).Ok?
    requires env.fromRaw(1, 1, 3, 3)
    ensures var bgr := GetFrame(img, env, frame).value;
      && |bgr| == 3
      && Decode(img, env, frame) == Ok(DynamicImage(Rgb8, 1, 1, bgr))
  {
    var bgr := GetFrame(img, env, frame).value;
    assert |bgr| == 3;
    forall i | 0 <= i < 3 ensures ConvertBgra(bgr)[i] == bgr[i] {
      assert SwapSource(i, 3, 4) == i;
    }
    assert ConvertBgra(bgr) == bgr;
  }

  /** As written, in a BGR888 frame of three or more pixels the 4-byte chunks
      straddle pixel boundaries: pixel 0 comes out swapped as intended, but
      pixel 1 mixes its own bytes with a byte of pixel 2. */
  lemma Bgr888PixelsScrambled<H>(img: VTFImage<H>, env: Collaborators<H>, frame: nat)
    requires img.format == Bgr888 && img.width * img.height >= 3
    requires GetFrame(img, env, frame).Ok?
    requires env.fromRaw(img.width, img.height, 3, img.width * img.height * 3)
    ensures var bgr := GetFrame(img, env, frame).value;
      && Decode(img, env, frame).Ok?
      && Decode(img, env, frame).value.layout == Rgb8
      && Decode(img, env, frame).value.data[0..3] == [bgr[2], bgr[1], bgr[0]]
      && Decode(img, env, frame).value.data[3..6] == [bgr[3], bgr[6], bgr[5]]
  {
    var bgr := GetFrame(img, env, frame).value;
    assert FrameSize(Bgr888, img.width, img.height) == Ok(img.width * img.height * 3);
    assert |bgr| >= 9;
    assert Decode(img, env, frame) == ImageFromBuffer(img, env, ConvertBgra(bgr), Rgb8);
    var out := ConvertBgra(bgr);
    ConvertBgraChunkAt(bgr, 0);
    ConvertBgraChunkAt(bgr, 1);
    assert out[0] == bgr[2] && out[1] == bgr[1] && out[2] == bgr[0];
    assert out[3] == bgr[3] && out[4] == bgr[6] && out[5] == bgr[5];
    assert out[0..3] == [out[0], out[1], out[2]];
    assert out[3..6] == [out[3], out[4], out[5]];
  }

  /** Corrected: a 1 x 1 BGR888 frame B,G,R decodes to R,G,B. */
  lemma Bgr888PixelSwapped<H>(img: VTFImage<H>, env: Collaborators<H>, frame: nat)
    requires img.format == Bgr888 && img.width == 1 && img.height == 1
    requires GetFrameFixed(img, env, frame).Ok?
    requires env.fromRaw(1, 1, 3, 3)
    ensures var bgr := GetFrameFixed(img, env, frame).value;
      && |bgr| == 3
      && DecodeFixed(img, env, frame) == Ok(DynamicImage(Rgb8, 1, 1, [bgr[2], bgr[1], bgr[0]]))
  {
    var bgr := GetFrameFixed(img, env, frame).value;
    assert |bgr| == 3;
    ConvertBgrPixels(bgr, 0);
    assert ConvertBgr(bgr) == ConvertBgr(bgr)[0..3];
    assert DecodeFixed(img, env, frame) == ImageFromBuffer(img, env, ConvertBgr(bgr), Rgb8);
  }

  /** As written: a decoded BGRA8888 frame is tagged RGB8 but keeps four bytes
      per pixel, so it never holds three bytes per pixel unless it is empty. */
  lemma BgraTaggedRgbKeepsFourBytes<H>(img: VTFImage<H>, env: Collaborators<H>, frame: nat)
    requires img.format == Bgra8888
    requires Decode(img, env, frame).Ok?
    ensures var out := Decode(img, env, frame).value;
      && out.layout == Rgb8
      && |out.data| == img.width * img.height * 4
      && (|out.data| == img.width * img.height * out.layout.Channels() <==> img.width * img.height == 0)
  {
  }

  /** Corrected: a located DXT3 or DXT1-with-alpha frame reaches the
      decompressor and yields `width * height` RGBA8 pixels whenever the image
      library accepts that geometry. */
  lemma FixedDxtReachesDecoder<H>(img: VTFImage<H>, env: Collaborators<H>, frame: nat)
    requires img.format in {Dxt3, Dxt1Onebitalpha}
    requires GetFrameFixed(img, env, frame).Ok?
    requires env.fromRaw(img.width, img.height, 4, img.width * img.height * 4)
    ensures DecodeFixed(img, env, frame).Ok?
    ensures DecodeFixed(img, env, frame).value.layout == Rgba8
    ensures Decode(img, env, frame) == Err(UnsupportedImageFormat(img.format))
  {
  }
}
