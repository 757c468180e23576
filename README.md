# RFB pixel format and encoder registry

A Dafny model of the protocol core of the `rfb-encodings` crate (`src/lib.rs`):

- the RFB `PixelFormat` record of section 7.4 of RFC 6143, with its four named
  presets (RGBA32, RGB565, RGB555, BGR233), the test that a format is exactly
  the canonical RGBA32 layout, and the test that a format is one the encoders
  support;
- the 16-byte wire form of that record: `write_to` appends it to a byte
  buffer and `from_bytes` reads it back from the front of one;
- the encoding-type numbers of section 7.7 of RFC 6143, the Hextile
  subencoding flags and the Tight PNG marker, and `get_encoder`, the
  registry from an encoding number to an encoder.

Files:

- `wrappers.dfy`: `Option` and `Result`.
- `bits.dfy`: powers of two and the leading-zero count of a fixed-width integer
  (Rust's `u16::leading_zeros`).
- `wire.dfy`: `u8`, `u16` and `i32`, big-endian 16-bit fields, and `ByteBuf`, a class
  that models the `BytesMut` buffer. Its `bytes` field holds the unread bytes.
  The `put_*` methods append to it, and the `get_*`/`advance` methods consume
  from its front.
- `pixel_format.dfy`: the record, the presets, `IsCompatibleWithRgba32` and `IsValid`.
- `pixel_format_wire.dfy`: `Serialize` and `Decode`, which state the wire layout.
  Also `WriteTo` and `FromBytes`, which do the same work one field at a time
  on a `ByteBuf` and are proved against those two functions.
- `encodings.dfy`: the constants, the `Encoder` tag and `GetEncoder`.

Notes on the model:

- The wire record has no padding before the shift fields. The three padding
  bytes come after `blue_shift`, at offsets 13 to 15. This follows
  `src/lib.rs:319-331` and `src/lib.rs:357-369`.
- `from_bytes` does not validate. The write/read round trip holds for every
  record, valid or not. Only the three padding bytes are not carried through.
- The two flags are bytes, not booleans. `is_valid` treats any non-zero
  `true_colour_flag` as true colour. `is_compatible_with_rgba32` needs exactly 1.
  `big_endian_flag` is not checked by `is_valid`.
- `is_valid` checks only that each shift is below 32. It does not check that
  the channels lie inside `bits_per_pixel` or that they do not overlap, even
  though the comment at `src/lib.rs:232` says it does. It also allows a depth
  greater than `bits_per_pixel`. The model follows the code, and
  `PixelFormats.ValidityIgnoresChannelPlacement` shows two such formats.
- The sum of the three channel widths is at most 48, so the `u8` addition at
  `src/lib.rs:228` cannot overflow. The model adds unbounded integers.

## Model

| member | source | states |
|---|---|---|
| `PixelFormats.Rgba32` | src/lib.rs:147-160 | a little-endian true-colour preset of 32 bits per pixel with three 8-bit channels, each maximum the all-ones value of its width, placed side by side from bit 0 (red, green, blue) and exactly filling the depth of 24 |
| `PixelFormats.Rgb565` | src/lib.rs:250-263 | a little-endian true-colour preset with 5-, 6- and 5-bit channels, each maximum the all-ones value of its width, placed side by side from bit 0 (blue, green, red) and exactly filling the 16 bits per pixel |
| `PixelFormats.Rgb555` | src/lib.rs:273-286 | a little-endian true-colour preset with three 5-bit channels, each maximum the all-ones value of its width, placed side by side from bit 0 (blue, green, red) and filling the depth of 15, one bit less than the 16 bits per pixel |
| `PixelFormats.Bgr233` | src/lib.rs:297-310 | a little-endian true-colour preset with 3-, 3- and 2-bit channels, each maximum the all-ones value of its width, placed side by side from bit 0 (red, green, blue) and exactly filling the 8 bits per pixel |
| `PixelFormats.IsCompatibleWithRgba32` | src/lib.rs:168-179 | holds exactly when the format equals the RGBA32 preset in all ten fields |
| `PixelFormats.BitsNeeded` | src/lib.rs:215-221 | the bit width of a channel maximum: 0 exactly for 0, otherwise the r with 2^(r-1) <= max < 2^r (one past the highest set bit), at most 16 |
| `PixelFormats.LeadingZeros16` | src/lib.rs:219 | the leading-zero count of a 16-bit value: exactly 16 for zero; for a non-zero value the r < 16 with 2^(15-r) <= m < 2^(16-r), i.e. bit 15 - r is the highest set bit |
| `PixelFormats.BitsNeededExactly` | src/lib.rs:215-221 | a maximum in [2^(n-1), 2^n) is exactly n bits wide |
| `PixelFormats.BitsNeededIsLeast` | src/lib.rs:215-221 | that width is the least number of bits the maximum fits in |
| `PixelFormats.IsValid` | src/lib.rs:190-239 | holds exactly when bpp is 8, 16, 24 or 32, the depth is in 1..32 and a colour-mapped format has 8 bpp; for a true-colour format the three channel widths must also sum to at most the depth and every shift must be below 32 |
| `PixelFormats.InvalidFormats` | src/lib.rs:190-208 | a bits_per_pixel outside {8, 16, 24, 32}, a depth of 0 or above 32, or a colour-mapped format at other than 8 bits per pixel is invalid |
| `PixelFormats.ColourMappedValidIff` | src/lib.rs:190-239 | a colour-mapped format is valid exactly when bits_per_pixel is 8 and depth is in 1..32 |
| `PixelFormats.TrueColourValidIff` | src/lib.rs:190-239 | a true-colour format is valid exactly when it passes the basic checks, its three maxima fit in bit widths that sum to at most the depth, and every shift is below 32 |
| `PixelFormats.PresetChannelWidths` | src/lib.rs:250-310 | the preset maxima 255, 63, 31, 7 and 3 are 8, 6, 5, 3 and 2 bits wide |
| `PixelFormats.PresetsValidity` | src/lib.rs:147-310 | RGBA32 is valid and compatible; RGB565, RGB555 and BGR233 are valid and not compatible |
| `PixelFormats.ValidityIgnoresChannelPlacement` | src/lib.rs:232-235 | formats with overlapping channels, or with shifts past an 8-bit pixel, are still valid |
| `PixelFormats.CompatibleIsValid` | src/lib.rs:168-239 | every format compatible with RGBA32 is valid |
| `PixelFormatWire.Serialize` | src/lib.rs:319-331 | the record is 16 bytes and its last three bytes are zero |
| `PixelFormatWire.Decode` | src/lib.rs:349-371 | fails, with UnexpectedEof, exactly when fewer than 16 bytes are present; otherwise the record read is the one whose first 13 wire bytes are those of the buffer |
| `PixelFormatWire.SerializeLayout` | src/lib.rs:319-331 | byte order of the record: bpp, depth, big-endian flag, true-colour flag, red/green/blue max as big-endian u16, red/green/blue shift |
| `PixelFormatWire.DecodeSerialize` | src/lib.rs:319-371 | reading the bytes written for a format, whatever follows them, gives the same ten fields back |
| `PixelFormatWire.SerializeDecode` | src/lib.rs:319-371 | a 16-byte prefix with zero padding is exactly the bytes written for the format read from it |
| `PixelFormatWire.DecodeShort` | src/lib.rs:349-355 | fewer than 16 bytes is an UnexpectedEof error |
| `PixelFormatWire.DecodeIgnoresPadding` | src/lib.rs:357-370 | buffers that agree on their first 13 bytes decode to the same record, whatever the padding bytes are |
| `PixelFormatWire.SerializeInjective` | src/lib.rs:319-331 | different formats are written as different bytes |
| `PixelFormatWire.WriteTo` | src/lib.rs:319-331 | appends exactly the 16 bytes of the record and leaves the earlier contents unchanged |
| `PixelFormatWire.FromBytes` | src/lib.rs:349-371 | returns the record read from the front of the buffer and consumes exactly 16 bytes; with fewer than 16 bytes it returns UnexpectedEof and consumes nothing |
| `PixelFormatWire.WriteThenRead` | src/lib.rs:319-371 | writing a format to a buffer, appending any bytes, and reading back gives the format and leaves exactly the appended bytes unread |
| `Encodings.GetEncoder` | src/lib.rs:409-419 | returns an encoder exactly for Raw (0), RRE (2), CoRRE (4), Hextile (5), Tight (7) and TightPng (-260), and that encoder implements the requested type |
| `Encodings.EncodingType` | src/lib.rs:409-419 | the encoding type of every encoder is one the registry serves |
| `Encodings.EncodingNumbersDistinct` | src/lib.rs:44-75 | the eleven encoding numbers are distinct, and only TightPng (-260) is negative |
| `Encodings.GetEncoderOfType` | src/lib.rs:409-419 | every encoder is what the registry returns for its own encoding type |
| `Encodings.EncodingTypeInjective` | src/lib.rs:409-419 | no two encoders serve the same encoding type |
| `Encodings.UnregisteredStandardEncodings` | src/lib.rs:409-419 | CopyRect (1), Zlib (6), ZlibHex (8), ZRLE (16) and ZYWRLE (17) get no encoder |
| `Encodings.HextileFlagsDistinctBits` | src/lib.rs:92-105 | the Hextile flags are 1 << 0 (raw), 1 << 1 (background specified), 1 << 2 (foreground specified), 1 << 3 (any subrects) and 1 << 4 (subrects coloured); they do not overlap, and together they make 0x1F, so bits 5 to 7 stay clear |

## Left out

- The encoder bodies are not part of this model: `raw`, `rre`, `corre`, `hextile`, `tight`, `tightpng`, `zlib`, `zlibhex`, `zrle`, `zywrle`, `translate`, `jpeg` and `common`. Their source is not available to it, so the `Encoding` trait (`src/lib.rs:375-397`) is only a tag, the `Encoder` datatype. What `encode` emits is not modelled.
- The heap allocation of `Box<dyn Encoding>` and dynamic dispatch: `GetEncoder` returns the encoder's tag.
- The zlib, deflate, JPEG and PNG codecs and the persistent compression state: they are foreign libraries.
- The internals of `BytesMut` (capacity, reallocation, splitting): `ByteBuf` keeps only the sequence of unread bytes. The `io::Error` message text is dropped; the error is the single variant `UnexpectedEof`.
- `Wire.ByteBuf.GetU8`, `GetU16` and `Advance` require enough bytes, where the `bytes` crate would panic. `from_bytes` checks the length first, so the panic is never reached.
- `build.rs`: the linker search-path setup for libjpeg-turbo, which contains no encoding logic.
