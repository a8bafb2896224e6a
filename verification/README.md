# vtf-rs image core, modelled in Dafny

This project models the pixel-format core of a Valve Texture Format (VTF)
reader, `src/image.rs`:

- `ImageFormat`: the closed set of 28 on-disk pixel formats with their
  `i16` discriminants, -1 (`None`) through 26 (`Uvlx8888`).
- `ImageFormat::frame_size`: how many bytes one frame takes on disk.
  - Uncompressed formats use width × height × bytes per pixel.
  - DXT1 and DXT5 use 4×4 blocks of 8 and 16 bytes (S3TC BC1 and BC3).
  - Every other format is an `UnsupportedImageFormat` error.
- `VTFImage::get_frame`: the frame's slice of the file bytes. It is
  `frame_size` bytes long and starts at the pixel-data offset plus the frame
  offset.
- `VTFImage::decode`, with `decode_dxt`, `image_from_buffer` and
  `convert_bgra`: dispatch on the format.
  - DXT frames go to the block decompressor.
  - RGBA and RGB frames are copied as they are.
  - BGR and BGRA frames get a byte swap inside each 4-byte chunk.
  - Every other format is refused.

Modules, one per part of the source:

| file | module | models |
|---|---|---|
| `formats.dfy` | `Formats` | the enum, its codes, and the channel layout each format name spells out |
| `errors.dfy` | `Errors` | the error kinds the core raises or passes on, and `Result` |
| `sizes.dfy` | `Sizes` | `frame_size`, and which formats overflow `u32` |
| `swizzle.dfy` | `Swizzle` | `convert_bgra`, as a map from each byte to its source position and as the source's loop |
| `image.dfy` | `Image` | `get_frame`, `decode_dxt`, `image_from_buffer`, `decode` |
| `corrected.dfy` | `Corrected` | the decoder with the three defects under "Findings" fixed |

Code the core calls but that is not part of this model becomes parameters.
They are bundled in `Image.Collaborators`:

- `getOffset` stands for `utils::get_offset`. Its errors are passed on unchanged.
- `decompress` stands for the `texpresso` decompressor. It gives the byte
  left at each index of the `width * height * 4` output buffer.
- `fromRaw` stands for the image crate's `ImageBuffer::from_raw` acceptance rule.

The file header is a type parameter `H`, because only `get_offset` reads it.

Facts about the code that the model keeps:

- The format codes run from -1 (`None`) to 26 (`Uvlx8888`).
- A BGRA8888 frame decodes to all `width * height * 4` bytes, tagged RGB8.
- DXT3 and DXT1-with-1-bit-alpha frames are never decoded, because
  `frame_size` refuses them first.

## Model

| member | source | states |
|---|---|---|
| Formats.Code | src/image.rs:125-156 | every discriminant lies in [-1, 26] |
| Formats.FromCode | src/image.rs:125-127 | conversion from `i16` succeeds exactly on [-1, 26] and yields the variant carrying that code; any other code is rejected and reported back |
| Formats.CodesFollowDeclarationOrder | src/image.rs:128-156 | the variant in declaration position i has code i - 1, there are 28 of them, and every variant is listed |
| Formats.FromCodeOfCode | src/image.rs:125-156 | format → code → format is the identity |
| Formats.CodeOfFromCode | src/image.rs:125-156 | for an accepted code, code → format → code is the identity |
| Sizes.BlocksCovering | src/image.rs:172-173 | `(n + 3) / 4` is the least number of 4-pixel blocks covering n pixels |
| Sizes.FrameSize | src/image.rs:159-178 | succeeds exactly for the 15 formats with a size rule; otherwise the error is `UnsupportedImageFormat` of that format; `None` is 0; DXT1/DXT5 sizes are covering blocks × 8/16 bytes |
| Sizes.UncompressedSizeMatchesLayout | src/image.rs:161-175 | each uncompressed size rule equals pixel count × the channel bits its format name spells out (e.g. 5+6+5 for `Rgb565`, 4×16 for `Rgba16161616`), in bytes |
| Sizes.BlockBoundaries | src/image.rs:161-175 | a 1×1 DXT frame is exactly one block (8 or 16 bytes); a frame with zero width or height is 0 bytes in every sized format |
| Sizes.UnsizedFormats | src/image.rs:176 | P8, the bluescreen, BGRX/BGR565/5551/4444, UV and DXT3/DXT1-alpha formats are all refused with `UnsupportedImageFormat` |
| Sizes.OverflowFreeExactly | src/image.rs:159-178 | the `u32` product stays below 2^32 for all `u16` dimensions exactly for `None`, `I8`, `A8`, `Dxt1` and the refused formats; every other rule overflows at 65535×65535 |
| Swizzle.SwapSource | src/image.rs:116-122 | the position a byte comes from after the chunk swap lies inside the buffer |
| Swizzle.SwapSourceInvolutive | src/image.rs:116-122 | the position map of the chunk swap is its own inverse |
| Swizzle.ConvertBgra | src/image.rs:115 | `convert_bgra` preserves the buffer length |
| Swizzle.ConvertBgraChunks | src/image.rs:116-122 | in every complete 4-byte chunk B,G,R,A becomes R,G,B,A, and the last `len % 4` bytes are unchanged |
| Swizzle.ChunkSwapInvolution | src/image.rs:116-122 | the chunk swap applied twice returns the original buffer |
| Swizzle.ConvertBgraInvolution | src/image.rs:115-123 | `convert_bgra` applied twice returns the original buffer |
| Swizzle.ConvertBgraLoop | src/image.rs:115-123 | the in-place loop over `chunks_exact_mut(4)` produces the same bytes as the position-map definition |
| Swizzle.ConvertBgraUniform | src/image.rs:117-121 | a buffer of identical whole B,G,R,A pixels becomes identical R,G,B,A pixels |
| Image.LocateFrame | src/image.rs:40-47 | the size error comes first and the offset error second, both unchanged; success exactly when the range fits in the buffer; then the result is `size` bytes, each the file byte at pixel-data offset + frame offset + i |
| Image.GetFrame | src/image.rs:40-47 | an unsized format fails with `UnsupportedImageFormat`; an offset error comes back unchanged; a located frame is exactly the `frame_size` bytes of the file starting at pixel-data offset + frame offset |
| Image.DecodeDxt | src/image.rs:49-58 | the output is `width * height * 4` bytes whatever the compressed input's length, and never fails |
| Image.ImageFromBuffer | src/image.rs:60-74 | succeeds exactly when the image library accepts the geometry, wraps the buffer unchanged with the requested tag and the image's dimensions, and otherwise fails only with `InvalidImageData` |
| Image.Decode | src/image.rs:76-111 | only DXT1, DXT5, RGBA8888, RGB888, BGR888, BGRA8888 ever decode; DXT3 and DXT1-alpha always fail with `UnsupportedImageFormat`; a frame-location error passes through unchanged; a located frame of any other format fails with `UnsupportedImageFormat` |
| Image.DecodeLocated | src/image.rs:78-108 | for a located frame of a decodable format, the library's refusal (`InvalidImageData`) is the only failure; a success has the frame's dimensions, RGBA8 for DXT and RGBA8888 and RGB8 otherwise, and holds the decompressor's `width * height * 4` bytes, the frame bytes verbatim (RGBA8888, RGB888) or `convert_bgra` of them (BGR888, BGRA8888) |
| Image.LocateThenDecodeRgba | src/image.rs:95-97 | an RGBA8888 frame of known pixels placed at a known offset in the file decodes to exactly those pixels, in order |
| Image.DecodeUniformBgra | src/image.rs:104-108 | a uniform B,G,R,A frame decodes to R,G,B,A in every pixel, keeping `width * height * 4` bytes under an RGB8 tag |
| Corrected.FrameSizeFixed | src/image.rs:172-176 | the size rule with DXT3 (16-byte blocks) and DXT1-alpha (8-byte blocks) added; unchanged for every other format |
| Corrected.ConvertBgr | src/image.rs:99-103 | the 3-byte B,G,R swap preserves length |
| Corrected.ConvertBgrPixels | src/image.rs:99-103 | every whole 3-byte pixel B,G,R becomes R,G,B |
| Corrected.GetFrameFixed | src/image.rs:40-47 | a frame located with the corrected size rule is exactly that many bytes |
| Corrected.FixedPixels | src/image.rs:78-108 | the corrected per-format channel bytes hold exactly width × height × channels of the tagged layout |
| Corrected.DecodeFixed | src/image.rs:76-111 | every decoded image holds exactly one pixel's worth of bytes per pixel of its tag; after location it succeeds exactly when the library accepts that geometry; BGR888 decodes through the 3-byte swap |
| Corrected.Bgr888PixelNotSwapped | src/image.rs:99-103 | as written, a 1×1 BGR888 frame B,G,R comes out unchanged as an RGB8 pixel, so blue lands in the red channel |
| Corrected.Bgr888PixelsScrambled | src/image.rs:99-103 | as written, in a BGR888 frame of three or more pixels pixel 0 is swapped correctly but pixel 1 comes out as its own byte 0, byte 0 of pixel 2, and its own byte 2 |
| Corrected.Bgr888PixelSwapped | src/image.rs:99-103 | corrected, the same frame comes out as R,G,B |
| Corrected.BgraTaggedRgbKeepsFourBytes | src/image.rs:104-108 | as written, a decoded BGRA8888 image is tagged RGB8 but holds 4 bytes per pixel, so it has 3 bytes per pixel only when it is empty |
| Corrected.FixedDxtReachesDecoder | src/image.rs:83-90 | corrected, a located DXT3 or DXT1-alpha frame reaches the decompressor and decodes to RGBA8 when the library accepts it; as written, the same frame fails with `UnsupportedImageFormat` |

## Left out

- `utils::get_offset` and `VTFHeader` parsing are not part of this model. The offset function is the `getOffset` parameter, and the header is an opaque type parameter.
- The `texpresso` BC1/BC2/BC3 decompression algorithm is a foreign library. It is the `decompress` parameter, constrained only by the length of its output buffer.
- `ImageBuffer::from_raw`, `DynamicImage` and the `Pixel` generics belong to the image crate. They are replaced by the `fromRaw` acceptance parameter and a tagged `DynamicImage` of layout, dimensions and bytes.
- `VTFImage::new` only stores its arguments. It is the `VTFImage` datatype constructor.
- Rust lifetimes, borrowed-slice aliasing and the `Debug`/`Display` derives carry no behaviour. A frame is modelled as a copied sequence.
- Sizes.FrameSize: computes in unbounded integers, not in `u32`, so it does not wrap or panic on overflow. `Sizes.OverflowFreeExactly` states for which formats the `u32` result would differ.
- Image.LocateFrame: returns `SliceOutOfRange` where the source panics on an out-of-range slice.
- Image.GetFrame: takes the frame index as an unbounded natural rather than a `u32`. The index is only passed on to `getOffset`.

## Findings

| source | as written | input that shows it | evidently intended | confidence | as-written member | corrected member |
|---|---|---|---|---|---|---|
| src/image.rs:83-90 | `frame_size` has no arm for `Dxt3` or `Dxt1Onebitalpha`, so `decode` fails before reaching their BC2/BC1 arms | any DXT3 texture, e.g. 4×4: `UnsupportedImageFormat(Dxt3)` | DXT3 sized in 16-byte blocks, DXT1-alpha in 8-byte blocks, both decoded | high; not executed | Corrected.FixedDxtReachesDecoder | Corrected.DecodeFixed |
| src/image.rs:99-103 | BGR888 frames (3 bytes per pixel) are swapped in 4-byte chunks | 1×1 BGR888 frame [10, 20, 30] decodes to RGB8 [10, 20, 30]; with three or more pixels the 4-byte chunks straddle pixels, so pixel 0 is swapped but pixel 1 [b1, g1, r1] comes out as [b1, b2, r1], taking blue from pixel 2 (`Corrected.Bgr888PixelsScrambled`) | swap bytes 0 and 2 of each 3-byte pixel: [30, 20, 10] | high; not executed | Corrected.Bgr888PixelNotSwapped | Corrected.Bgr888PixelSwapped |
| src/image.rs:104-108 | BGRA8888 frames keep 4 bytes per pixel but are tagged RGB8 | 2×1 frame [10,20,30,40,10,20,30,40] gives 8 bytes under an RGB8 tag: the library refuses it, or reads pixel 1 as [40, 30, 20] | tag the swapped bytes RGBA8 | medium; not executed | Corrected.BgraTaggedRgbKeepsFourBytes | Corrected.DecodeFixed |
