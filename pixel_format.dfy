/**
 * The RFB pixel-format record (section 7.4 of RFC 6143): its four named
 * presets, the check that a format is the canonical 32-bit RGBA layout, and
 * the check that a format is one the encoders support.
 */
module PixelFormats {
  import opened Bits
  import opened Wire

  /**
   * How a pixel is laid out: bits per pixel, colour depth, byte order and
   * colour mode flags (0 or non-zero), and for true colour the maximum value
   * and bit position of each channel.
   */
  datatype PixelFormat = PixelFormat(
    bitsPerPixel: u8,
    depth: u8,
    bigEndianFlag: u8,
    trueColourFlag: u8,
    redMax: u16,
    greenMax: u16,
    blueMax: u16,
    redShift: u8,
    greenShift: u8,
    blueShift: u8)

  /**
   * 32 bits per pixel, depth 24, little-endian, 8 bits per channel: red,
   * green and blue side by side from bit 0, filling the depth.
   */
  function Rgba32(): (r: PixelFormat)
    ensures r.trueColourFlag == 1
    ensures r.bitsPerPixel == 32 && r.bigEndianFlag == 0
    ensures r.redMax as nat == Pow2(BitsNeeded(r.redMax)) - 1
    ensures r.greenMax as nat == Pow2(BitsNeeded(r.greenMax)) - 1
    ensures r.blueMax as nat == Pow2(BitsNeeded(r.blueMax)) - 1
    ensures BitsNeeded(r.redMax) == 8 && BitsNeeded(r.greenMax) == 8 && BitsNeeded(r.blueMax) == 8
    ensures r.redShift == 0
    ensures r.greenShift as nat == r.redShift as nat + BitsNeeded(r.redMax)
    ensures r.blueShift as nat == r.greenShift as nat + BitsNeeded(r.greenMax)
    ensures r.blueShift as nat + BitsNeeded(r.blueMax) == r.depth as nat
  {
    PresetChannelWidths();
    Pow2UpTo8();
    PixelFormat(32, 24, 0, 1, 255, 255, 255, 0, 8, 16)
  }

  /**
   * 16 bits per pixel, 5-6-5 bits: blue from bit 0, then green, then red,
   * filling all 16 bits.
   */
  function Rgb565(): (r: PixelFormat)
    ensures r.trueColourFlag == 1
    ensures r.bigEndianFlag == 0
    ensures r.redMax as nat == Pow2(BitsNeeded(r.redMax)) - 1
    ensures r.greenMax as nat == Pow2(BitsNeeded(r.greenMax)) - 1
    ensures r.blueMax as nat == Pow2(BitsNeeded(r.blueMax)) - 1
    ensures BitsNeeded(r.redMax) == 5 && BitsNeeded(r.greenMax) == 6 && BitsNeeded(r.blueMax) == 5
    ensures r.blueShift == 0
    ensures r.greenShift as nat == r.blueShift as nat + BitsNeeded(r.blueMax)
    ensures r.redShift as nat == r.greenShift as nat + BitsNeeded(r.greenMax)
    ensures r.redShift as nat + BitsNeeded(r.redMax) == r.depth as nat == r.bitsPerPixel as nat
  {
    PresetChannelWidths();
    Pow2UpTo8();
    PixelFormat(16, 16, 0, 1, 31, 63, 31, 11, 5, 0)
  }

  /**
   * 16 bits per pixel, 5 bits per channel: blue from bit 0, then green, then
   * red, filling the depth of 15 and leaving the top bit unused.
   */
  function Rgb555(): (r: PixelFormat)
    ensures r.trueColourFlag == 1
    ensures r.bigEndianFlag == 0
    ensures r.redMax as nat == Pow2(BitsNeeded(r.redMax)) - 1
    ensures r.greenMax as nat == Pow2(BitsNeeded(r.greenMax)) - 1
    ensures r.blueMax as nat == Pow2(BitsNeeded(r.blueMax)) - 1
    ensures BitsNeeded(r.redMax) == 5 && BitsNeeded(r.greenMax) == 5 && BitsNeeded(r.blueMax) == 5
    ensures r.blueShift == 0
    ensures r.greenShift as nat == r.blueShift as nat + BitsNeeded(r.blueMax)
    ensures r.redShift as nat == r.greenShift as nat + BitsNeeded(r.greenMax)
    ensures r.redShift as nat + BitsNeeded(r.redMax) == r.depth as nat == r.bitsPerPixel as nat - 1
  {
    PresetChannelWidths();
    Pow2UpTo8();
    PixelFormat(16, 15, 0, 1, 31, 31, 31, 10, 5, 0)
  }

  /**
   * 8 bits per pixel, 3 bits red and green, 2 bits blue: red from bit 0, then
   * green, then blue, filling all 8 bits.
   */
  function Bgr233(): (r: PixelFormat)
    ensures r.trueColourFlag == 1
    ensures r.bigEndianFlag == 0
    ensures r.redMax as nat == Pow2(BitsNeeded(r.redMax)) - 1
    ensures r.greenMax as nat == Pow2(BitsNeeded(r.greenMax)) - 1
    ensures r.blueMax as nat == Pow2(BitsNeeded(r.blueMax)) - 1
    ensures BitsNeeded(r.redMax) == 3 && BitsNeeded(r.greenMax) == 3 && BitsNeeded(r.blueMax) == 2
    ensures r.redShift == 0
    ensures r.greenShift as nat == r.redShift as nat + BitsNeeded(r.redMax)
    ensures r.blueShift as nat == r.greenShift as nat + BitsNeeded(r.greenMax)
    ensures r.blueShift as nat + BitsNeeded(r.blueMax) == r.depth as nat == r.bitsPerPixel as nat
  {
    PresetChannelWidths();
    Pow2UpTo8();
    PixelFormat(8, 8, 0, 1, 7, 7, 3, 0, 3, 6)
  }

  /** The format is exactly the canonical 32-bit RGBA layout, so pixels need no translation. */
  predicate IsCompatibleWithRgba32(p: PixelFormat): (r: bool)
    ensures r <==> p == Rgba32()
  {
    p.bitsPerPixel == 32
    && p.depth == 24
    && p.bigEndianFlag == 0
    && p.trueColourFlag == 1
    && p.redMax == 255
    && p.greenMax == 255
    && p.blueMax == 255
    && p.redShift == 0
    && p.greenShift == 8
    && p.blueShift == 16
  }

  /** The number of leading zero bits of m as a 16-bit integer (16 for zero). */
  function LeadingZeros16(m: u16): (r: nat)
    ensures r <= 16
    ensures m == 0 ==> r == 16
    ensures m > 0 ==> r < 16 && Pow2(15 - r) <= m as nat < Pow2(16 - r)
  {
    Pow2Widths();
    if m == 0 then
      LeadingZerosInZero(16);
      LeadingZerosIn(m as nat, 16)
    else
      LeadingZerosInBounds(m as nat, 16);
      LeadingZerosIn(m as nat, 16)
  }

  /**
   * The number of bits a channel whose maximum is m occupies: 0 for 0,
   * otherwise one more than the position of the highest set bit.
   */
  function BitsNeeded(m: u16): (r: nat)
    ensures r <= 16
    ensures m == 0 <==> r == 0
    ensures m > 0 ==> Pow2(r - 1) <= m as nat < Pow2(r)
  {
    if m == 0 then 0
    else
      Pow2Widths();
      LeadingZerosInBounds(m as nat, 16);
      16 - LeadingZeros16(m)
  }

  /** BitsNeeded(m) is the least n for which m fits in n bits. */
  lemma BitsNeededIsLeast(m: u16, n: nat)
    requires m as nat < Pow2(n)
    ensures BitsNeeded(m) <= n
  {
    var b := BitsNeeded(m);
    if b > n {
      Pow2Monotonic(n, b - 1);
    }
  }

  /** bits_per_pixel is one of the four sizes the encoders can pack. */
  predicate SupportedBitsPerPixel(bpp: u8)
  {
    bpp == 8 || bpp == 16 || bpp == 24 || bpp == 32
  }

  /**
   * The format is one the encoders support: it passes the basic checks and,
   * for true colour, the channel widths fit in the depth and every shift is
   * below 32.
   */
  predicate IsValid(p: PixelFormat): (r: bool)
    ensures r <==>
      (BasicChecks(p)
       && (p.trueColourFlag != 0 ==>
             ChannelsFit(p, BitsNeeded(p.redMax), BitsNeeded(p.greenMax), BitsNeeded(p.blueMax))
             && ShiftsInRange(p)))
  {
    if !SupportedBitsPerPixel(p.bitsPerPixel) then false
    else if p.depth == 0 || p.depth > 32 then false
    else if p.trueColourFlag == 0 && p.bitsPerPixel != 8 then false
    else if p.trueColourFlag != 0 then
      var redBits := BitsNeeded(p.redMax);
      var greenBits := BitsNeeded(p.greenMax);
      var blueBits := BitsNeeded(p.blueMax);
      if redBits + greenBits + blueBits > p.depth as nat then false
      else if p.redShift >= 32 || p.greenShift >= 32 || p.blueShift >= 32 then false
      else true
    else true
  }

  /** The checks every format must pass, colour-mapped or true colour. */
  predicate BasicChecks(p: PixelFormat)
  {
    SupportedBitsPerPixel(p.bitsPerPixel)
    && 0 < p.depth <= 32
    && (p.trueColourFlag == 0 ==> p.bitsPerPixel == 8)
  }

  /** Each channel maximum fits in its width, and the widths together fit in the depth. */
  predicate ChannelsFit(p: PixelFormat, redBits: nat, greenBits: nat, blueBits: nat)
  {
    p.redMax as nat < Pow2(redBits)
    && p.greenMax as nat < Pow2(greenBits)
    && p.blueMax as nat < Pow2(blueBits)
    && redBits + greenBits + blueBits <= p.depth as nat
  }

  /** Every channel shift is below 32. */
  predicate ShiftsInRange(p: PixelFormat)
  {
    p.redShift < 32 && p.greenShift < 32 && p.blueShift < 32
  }

  /** A format with an unsupported bits_per_pixel, a depth outside 1..32, or colour-mapped at more than 8 bits is invalid. */
  lemma InvalidFormats(p: PixelFormat)
    requires !SupportedBitsPerPixel(p.bitsPerPixel)
      || p.depth == 0 || p.depth > 32
      || (p.trueColourFlag == 0 && p.bitsPerPixel != 8)
    ensures !IsValid(p)
  {
  }

  /** A colour-mapped format is valid exactly when it passes the basic checks. */
  lemma ColourMappedValidIff(p: PixelFormat)
    requires p.trueColourFlag == 0
    ensures IsValid(p) <==> BasicChecks(p)
  {
  }

  /**
   * A true-colour format is valid exactly when it passes the basic checks,
   * its channels fit in bit widths summing to at most the depth, and every
   * shift is below 32.
   */
  lemma TrueColourValidIff(p: PixelFormat)
    requires p.trueColourFlag != 0
    ensures IsValid(p) <==>
      BasicChecks(p)
      && (exists rb: nat, gb: nat, bb: nat :: ChannelsFit(p, rb, gb, bb))
      && ShiftsInRange(p)
  {
    if IsValid(p) {
      assert ChannelsFit(p, BitsNeeded(p.redMax), BitsNeeded(p.greenMax), BitsNeeded(p.blueMax));
    }
    if BasicChecks(p) && ShiftsInRange(p) && exists rb: nat, gb: nat, bb: nat :: ChannelsFit(p, rb, gb, bb) {
      var rb: nat, gb: nat, bb: nat :| ChannelsFit(p, rb, gb, bb);
      BitsNeededIsLeast(p.redMax, rb);
      BitsNeededIsLeast(p.greenMax, gb);
      BitsNeededIsLeast(p.blueMax, bb);
    }
  }

  /** A non-zero maximum in [2^(n-1), 2^n) is exactly n bits wide. */
  lemma BitsNeededExactly(m: u16, n: nat)
    requires n >= 1 && Pow2(n - 1) <= m as nat < Pow2(n)
    ensures BitsNeeded(m) == n
  {
    BitsNeededIsLeast(m, n);
    var b := BitsNeeded(m);
    if b < n {
      Pow2Monotonic(b, n - 1);
    }
  }

  /** The channel widths the presets' comments give: 8-8-8, 5-6-5, 5-5-5 and 3-3-2. */
  lemma PresetChannelWidths()
    ensures BitsNeeded(255) == 8
    ensures BitsNeeded(63) == 6
    ensures BitsNeeded(31) == 5
    ensures BitsNeeded(7) == 3
    ensures BitsNeeded(3) == 2
  {
    Pow2UpTo8();
    BitsNeededExactly(255, 8);
    BitsNeededExactly(63, 6);
    BitsNeededExactly(31, 5);
    BitsNeededExactly(7, 3);
    BitsNeededExactly(3, 2);
  }

  /** RGBA32 is valid and compatible; RGB565, RGB555 and BGR233 are valid but not compatible. */
  lemma PresetsValidity()
    ensures IsValid(Rgba32()) && IsCompatibleWithRgba32(Rgba32())
    ensures IsValid(Rgb565()) && !IsCompatibleWithRgba32(Rgb565())
    ensures IsValid(Rgb555()) && !IsCompatibleWithRgba32(Rgb555())
    ensures IsValid(Bgr233()) && !IsCompatibleWithRgba32(Bgr233())
  {
    PresetChannelWidths();
  }

  /**
   * Validity does not look at where the channels sit: a format whose three
   * channels share bit 0, and one whose channels all start above an 8-bit
   * pixel, are both valid.
   */
  lemma ValidityIgnoresChannelPlacement()
    ensures IsValid(PixelFormat(8, 8, 0, 1, 7, 7, 3, 0, 0, 0))
    ensures IsValid(PixelFormat(8, 8, 0, 1, 7, 7, 3, 31, 31, 31))
  {
    PresetChannelWidths();
  }

  /** A format compatible with RGBA32 is valid. */
  lemma CompatibleIsValid(p: PixelFormat)
    requires IsCompatibleWithRgba32(p)
    ensures IsValid(p)
  {
    PresetsValidity();
  }
}
