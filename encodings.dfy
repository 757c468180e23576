/**
 * The encoding-type numbers of section 7.7 of RFC 6143, the Hextile and
 * Tight subencoding constants, and the registry that maps an encoding type
 * to the encoder that serves it.
 */
module Encodings {
  import opened Wrappers
  import opened Wire

  const EncodingRaw: i32 := 0
  const EncodingCopyRect: i32 := 1
  const EncodingRre: i32 := 2
  const EncodingCoRre: i32 := 4
  const EncodingHextile: i32 := 5
  const EncodingZlib: i32 := 6
  const EncodingTight: i32 := 7
  const EncodingZlibHex: i32 := 8
  const EncodingZrle: i32 := 16
  const EncodingZywrle: i32 := 17
  /** A pseudo-encoding: negative by convention. */
  const EncodingTightPng: i32 := -260

  /** Hextile subencoding flags, one bit each (bits 0 to 4). */
  const HextileRaw: u8 := 1
  const HextileBackgroundSpecified: u8 := 2
  const HextileForegroundSpecified: u8 := 4
  const HextileAnySubrects: u8 := 8
  const HextileSubrectsColoured: u8 := 16

  /** Tight and TightPng: the PNG subencoding marker. */
  const TightPngSubencoding: u8 := 0x0A

  /** The encoders the registry can hand out; what each emits is not part of this model. */
  datatype Encoder =
    | RawEncoding
    | RreEncoding
    | CorRreEncoding
    | HextileEncoding
    | TightEncoding
    | TightPngEncoding

  /** The encoding type that each encoder implements: always one the registry serves. */
  function EncodingType(e: Encoder): (t: i32)
    ensures t in SupportedTypes
  {
    match e
    case RawEncoding => EncodingRaw
    case RreEncoding => EncodingRre
    case CorRreEncoding => EncodingCoRre
    case HextileEncoding => EncodingHextile
    case TightEncoding => EncodingTight
    case TightPngEncoding => EncodingTightPng
  }

  /** The encoding types the registry serves. */
  const SupportedTypes: set<i32> :=
    {EncodingRaw, EncodingRre, EncodingCoRre, EncodingHextile, EncodingTight, EncodingTightPng}

  /**
   * The encoder for an encoding type, or None when the type has none here.
   * An encoder is returned exactly for the supported types, and it is the one
   * that implements the requested type.
   */
  function GetEncoder(encodingType: i32): (r: Option<Encoder>)
    ensures r.Some? <==> encodingType in SupportedTypes
    ensures r.Some? ==> EncodingType(r.value) == encodingType
  {
    if encodingType == EncodingRaw then Some(RawEncoding)
    else if encodingType == EncodingRre then Some(RreEncoding)
    else if encodingType == EncodingCoRre then Some(CorRreEncoding)
    else if encodingType == EncodingHextile then Some(HextileEncoding)
    else if encodingType == EncodingTight then Some(TightEncoding)
    else if encodingType == EncodingTightPng then Some(TightPngEncoding)
    else None
  }

  /** Every encoder is what the registry returns for its own encoding type. */
  lemma GetEncoderOfType(e: Encoder)
    ensures GetEncoder(EncodingType(e)) == Some(e)
  {
  }

  /** Distinct encoders serve distinct encoding types. */
  lemma EncodingTypeInjective(e: Encoder, f: Encoder)
    requires EncodingType(e) == EncodingType(f)
    ensures e == f
  {
    GetEncoderOfType(e);
    GetEncoderOfType(f);
  }

  /** CopyRect, Zlib, ZlibHex, ZRLE and ZYWRLE have numbers but no encoder in the registry. */
  lemma UnregisteredStandardEncodings()
    ensures GetEncoder(EncodingCopyRect) == None
    ensures GetEncoder(EncodingZlib) == None
    ensures GetEncoder(EncodingZlibHex) == None
    ensures GetEncoder(EncodingZrle) == None
    ensures GetEncoder(EncodingZywrle) == None
  {
  }

  /**
   * The eleven encoding numbers are distinct, and only the TightPng
   * pseudo-encoding is negative.
   */
  lemma EncodingNumbersDistinct()
    ensures |{EncodingRaw, EncodingCopyRect, EncodingRre, EncodingCoRre, EncodingHextile, EncodingZlib,
              EncodingTight, EncodingZlibHex, EncodingZrle, EncodingZywrle, EncodingTightPng}| == 11
    ensures EncodingTightPng < 0
    ensures EncodingRaw >= 0 && EncodingCopyRect >= 0 && EncodingRre >= 0 && EncodingCoRre >= 0
      && EncodingHextile >= 0 && EncodingZlib >= 0 && EncodingTight >= 0 && EncodingZlibHex >= 0
      && EncodingZrle >= 0 && EncodingZywrle >= 0
  {
  }

  /**
   * The Hextile flags are bits 0 (raw), 1 (background specified), 2
   * (foreground specified), 3 (any subrects) and 4 (subrects coloured), so
   * they never overlap and bits 5 to 7 of a subencoding byte stay clear.
   */
  lemma HextileFlagsDistinctBits()
    ensures HextileRaw as bv8 == 1 << 0
    ensures HextileBackgroundSpecified as bv8 == 1 << 1
    ensures HextileForegroundSpecified as bv8 == 1 << 2
    ensures HextileAnySubrects as bv8 == 1 << 3
    ensures HextileSubrectsColoured as bv8 == 1 << 4
    ensures (HextileRaw as bv8) & (HextileBackgroundSpecified as bv8) == 0
    ensures ((HextileRaw + HextileBackgroundSpecified) as bv8) & (HextileForegroundSpecified as bv8) == 0
    ensures ((HextileRaw + HextileBackgroundSpecified + HextileForegroundSpecified) as bv8) & (HextileAnySubrects as bv8) == 0
    ensures ((HextileRaw + HextileBackgroundSpecified + HextileForegroundSpecified + HextileAnySubrects) as bv8)
      & (HextileSubrectsColoured as bv8) == 0
    ensures HextileRaw + HextileBackgroundSpecified + HextileForegroundSpecified + HextileAnySubrects
      + HextileSubrectsColoured == 0x1F
  {
  }
}
