/** `VTFImage`: locating one frame's bytes inside the texture file and
    decoding them into an RGBA8 or RGB8 pixel buffer. */
module Image {
  import opened Formats
  import opened Errors
  import opened Sizes
  import opened Swizzle

  /** The block-compression schemes of the decompression library. */
  datatype BcFormat = Bc1 | Bc2 | Bc3

  /** The channel layouts a decoded image can carry. */
  datatype PixelLayout = Rgba8 | Rgb8 {
    function Channels(): nat {
      match this
      case Rgba8 => 4
      case Rgb8 => 3
    }
  }

  /** A decoded image: its layout tag, dimensions and raw channel bytes. */
  datatype DynamicImage = DynamicImage(layout: PixelLayout, width: nat, height: nat, data: seq<bv8>)

  /** The code outside this model that the core calls, as parameters.
      `getOffset(header, format, frame, mip, face, slice)` is the offset of an
      image inside the pixel data; `decompress(variant, input, width, height, i)`
      is the byte the decompressor leaves at index `i` of the zero-initialised
      `width * height * 4` output buffer; `fromRaw(width, height, channels, len)`
      tells whether the image library accepts a buffer of `len` bytes for that
      geometry. */
  datatype Collaborators<-H> = Collaborators(
    getOffset: (H, ImageFormat, nat, nat, nat, nat) -> Result<nat>,
    decompress: (BcFormat, seq<bv8>, nat, nat, nat) -> bv8,
    fromRaw: (nat, nat, nat, nat) -> bool
  )

  /** One texture image: the file header (whose layout this model does not
      look into), its format and size, the whole file's bytes and the offset
      at which pixel data starts. */
  datatype VTFImage<H> = VTFImage(
    header: H,
    format: ImageFormat,
    width: u16,
    height: u16,
    bytes: seq<bv8>,
    offset: nat
  )

  /** The slice of `bytes` of the given size at pixel-data offset plus the
      frame's offset (mip, face and slice 0). A size error is reported before
      the offset is computed; a range past the end is an error here, where the
      source panics on the slice. */
  function LocateFrame<H>(img: VTFImage<H>, env: Collaborators<H>, frame: nat, size: Result<nat>)
    : (r: Result<seq<bv8>>)
    ensures size.Err? ==> r == Err(size.error)
    ensures var rel := env.getOffset(img.header, img.format, frame, 0, 0, 0);
      size.Ok? && rel.Err? ==> r == Err(rel.error)
    ensures var rel := env.getOffset(img.header, img.format, frame, 0, 0, 0);
      r.Ok? <==> size.Ok? && rel.Ok? && img.offset + rel.value + size.value <= |img.bytes|
    ensures var rel := env.getOffset(img.header, img.format, frame, 0, 0, 0);
      r.Ok? ==> (&& |r.value| == size.value
                 && forall i :: 0 <= i < |r.value| ==>
                      r.value[i] == img.bytes[img.offset + rel.value + i])
  {
    var n :- size;
    var rel :- env.getOffset(img.header, img.format, frame, 0, 0, 0);
    var base := img.offset + rel;
    if base + n <= |img.bytes| then
      Ok(img.bytes[base..base + n])
    else
      Err(SliceOutOfRange(base, base + n, |img.bytes|))
  }

  /** `VTFImage::get_frame`: the `frame_size` bytes at pixel-data offset plus
      the frame's offset. */
  function GetFrame<H>(img: VTFImage<H>, env: Collaborators<H>, frame: nat): (r: Result<seq<bv8>>)
    ensures var size := FrameSize(img.format, img.width, img.height);
      && (size.Err? ==> r == Err(UnsupportedImageFormat(img.format)))
      && (r.Ok? ==> size.Ok? && |r.value| == size.value)
    ensures var size := FrameSize(img.format, img.width, img.height);
      var rel := env.getOffset(img.header, img.format, frame, 0, 0, 0);
      size.Ok? && rel.Err? ==> r == Err(rel.error)
    ensures var size := FrameSize(img.format, img.width, img.height);
      var rel := env.getOffset(img.header, img.format, frame, 0, 0, 0);
      r.Ok? ==> (&& size.Ok? && rel.Ok?
                 && img.offset + rel.value + size.value <= |img.bytes|
                 && r.value == img.bytes[img.offset + rel.value..img.offset + rel.value + size.value])
  {
    LocateFrame(img, env, frame, FrameSize(img.format, img.width, img.height))
  }

  /** `decode_dxt`: the output buffer holds `width * height * 4` bytes whatever
      the length of the compressed input. It never fails. */
  function DecodeDxt<H>(img: VTFImage<H>, env: Collaborators<H>, bytes: seq<bv8>, variant: BcFormat)
    : (r: seq<bv8>)
    ensures |r| == img.width * img.height * 4
  {
    var w: nat := img.width;
    var h: nat := img.height;
    seq(w * h * 4, i requires 0 <= i => env.decompress(variant, bytes, w, h, i))
  }

  /** `image_from_buffer`: wraps the buffer, unchanged, as an image of the
      given layout when the image library accepts it, and otherwise fails
      with `InvalidImageData`. */
  function ImageFromBuffer<H>(img: VTFImage<H>, env: Collaborators<H>, buffer: seq<bv8>, layout: PixelLayout)
    : (r: Result<DynamicImage>)
    ensures r.Ok? <==> env.fromRaw(img.width, img.height, layout.Channels(), |buffer|)
    ensures r.Ok? ==> r.value == DynamicImage(layout, img.width, img.height, buffer)
    ensures r.Err? ==> r.error == InvalidImageData
  {
    if env.fromRaw(img.width, img.height, layout.Channels(), |buffer|) then
      Ok(DynamicImage(layout, img.width, img.height, buffer))
    else
      Err(InvalidImageData)
  }

  /** The block-compression variant each DXT format is handed to. */
  function DxtVariant(f: ImageFormat): BcFormat
    requires IsBlockCompressed(f)
  {
    match f
    case Dxt3 => Bc2
    case Dxt5 => Bc3
    case _ => Bc1
  }

  /** The formats `decode` can turn into an image. */
  const Decodable: set<ImageFormat> := {Dxt1, Dxt5, Rgba8888, Rgb888, Bgr888, Bgra8888}

  /** The layout tag `decode` gives each decodable format. */
  function DecodedLayout(f: ImageFormat): PixelLayout {
    if IsBlockCompressed(f) || f == Rgba8888 then Rgba8 else Rgb8
  }

  /** `VTFImage::decode`. */
  function Decode<H>(img: VTFImage<H>, env: Collaborators<H>, frame: nat): (r: Result<DynamicImage>)
    // Only six formats ever produce an image.
    ensures r.Ok? ==> img.format in Decodable
    // Dxt3 and Dxt1Onebitalpha have a decoder arm that is never reached.
    ensures img.format in {Dxt3, Dxt1Onebitalpha} ==>
      r == Err(UnsupportedImageFormat(img.format))
    // Locating the frame comes first, and its error is passed on unchanged.
    ensures GetFrame(img, env, frame).Err? ==> r == Err(GetFrame(img, env, frame).error)
    ensures GetFrame(img, env, frame).Ok? && img.format !in Decodable ==>
      r == Err(UnsupportedImageFormat(img.format))
  {
    var bytes :- GetFrame(img, env, frame);
    match img.format
    case Dxt1 =>
      ImageFromBuffer(img, env, DecodeDxt(img, env, bytes, Bc1), Rgba8)
    case Dxt1Onebitalpha =>
      ImageFromBuffer(img, env, DecodeDxt(img, env, bytes, Bc1), Rgba8)
    case Dxt3 =>
      ImageFromBuffer(img, env, DecodeDxt(img, env, bytes, Bc2), Rgba8)
    case Dxt5 =>
      ImageFromBuffer(img, env, DecodeDxt(img, env, bytes, Bc3), Rgba8)
    case Rgba8888 =>
      ImageFromBuffer(img, env, bytes, Rgba8)
    case Rgb888 =>
      ImageFromBuffer(img, env, bytes, Rgb8)
    case Bgr888 =>
      ImageFromBuffer(img, env, ConvertBgra(bytes), Rgb8)
    case Bgra8888 =>
      ImageFromBuffer(img, env, ConvertBgra(bytes), Rgb8)
    case _ =>
      Err(UnsupportedImageFormat(img.format))
  }

  /** What a located frame of a decodable format decodes to: the image
      library's refusal is the only failure left, and a success carries the
      frame's dimensions, the format's layout tag and, per format, the
      decompressor's output, the frame bytes verbatim, or the frame bytes
      after `convert_bgra`. */
  lemma DecodeLocated<H>(img: VTFImage<H>, env: Collaborators<H>, frame: nat)
    requires GetFrame(img, env, frame).Ok? && img.format in Decodable
    ensures var bytes := GetFrame(img, env, frame).value;
      var r := Decode(img, env, frame);
      && (r.Ok? <==> env.fromRaw(img.width, img.height, DecodedLayout(img.format).Channels(),
                                 if IsBlockCompressed(img.format) then img.width * img.height * 4
                                 else |bytes|))
      && (r.Err? ==> r.error == InvalidImageData)
      && (r.Ok? ==>
            && r.value.layout == DecodedLayout(img.format)
            && r.value.width == img.width && r.value.height == img.height
            && env.fromRaw(img.width, img.height, r.value.layout.Channels(), |r.value.data|))
      && (r.Ok? && IsBlockCompressed(img.format) ==>
            r.value.data == DecodeDxt(img, env, bytes, DxtVariant(img.format)))
      && (r.Ok? && img.format in {Rgba8888, Rgb888} ==> r.value.data == bytes)
      && (r.Ok? && img.format in {Bgr888, Bgra8888} ==> r.value.data == ConvertBgra(bytes))
  {
    var bytes := GetFrame(img, env, frame).value;
    var layout := DecodedLayout(img.format);
    var buffer :=
      if IsBlockCompressed(img.format) then DecodeDxt(img, env, bytes, DxtVariant(img.format))
      else if img.format in {Bgr888, Bgra8888} then ConvertBgra(bytes)
      else bytes;
    assert Decode(img, env, frame) == ImageFromBuffer(img, env, buffer, layout);
  }

  /** A texture holding one RGBA8888 frame of known pixels at a known place
      decodes to exactly those pixels, in order. */
  lemma LocateThenDecodeRgba<H>(img: VTFImage<H>, env: Collaborators<H>, frame: nat,
                                prefix: seq<bv8>, pixels: seq<bv8>, suffix: seq<bv8>, rel: nat)
    requires img.format == Rgba8888
    requires img.bytes == prefix + pixels + suffix
    requires |pixels| == img.width * img.height * 4
    requires env.getOffset(img.header, Rgba8888, frame, 0, 0, 0) == Ok(rel)
    requires img.offset + rel == |prefix|
    requires env.fromRaw(img.width, img.height, 4, |pixels|)
    ensures Decode(img, env, frame) == Ok(DynamicImage(Rgba8, img.width, img.height, pixels))
  {
    var located := GetFrame(img, env, frame);
    assert located.Ok?;
    assert located.value == pixels;
  }

  /** A BGRA8888 frame whose every pixel is B,G,R,A decodes to R,G,B,A in
      every pixel; all four bytes per pixel are kept although the image is
      tagged RGB8. */
  lemma DecodeUniformBgra<H>(img: VTFImage<H>, env: Collaborators<H>, frame: nat,
                             b: bv8, g: bv8, r: bv8, a: bv8)
    requires img.format == Bgra8888
    requires GetFrame(img, env, frame).Ok?
    requires var bytes := GetFrame(img, env, frame).value;
      forall p :: 0 <= p && 4 * p + 4 <= |bytes| ==> bytes[4 * p..4 * p + 4] == [b, g, r, a]
    requires env.fromRaw(img.width, img.height, 3, img.width * img.height * 4)
    ensures Decode(img, env, frame).Ok?
    ensures var out := Decode(img, env, frame).value;
      && out.layout == Rgb8
      && |out.data| == img.width * img.height * 4
      && forall p :: 0 <= p < img.width * img.height ==> out.data[4 * p..4 * p + 4] == [r, g, b, a]
  {
    var bytes := GetFrame(img, env, frame).value;
    assert FrameSize(Bgra8888, img.width, img.height) == Ok(img.width * img.height * 4);
    assert |bytes| == img.width * img.height * 4;
    ConvertBgraUniform(bytes, b, g, r, a);
    assert Decode(img, env, frame) == ImageFromBuffer(img, env, ConvertBgra(bytes), Rgb8);
  }
}
