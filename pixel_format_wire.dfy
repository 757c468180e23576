/**
 * The 16-byte wire record of a pixel format: bits_per_pixel, depth,
 * big_endian_flag, true_colour_flag, red_max, green_max, blue_max (each two
 * bytes, big-endian), red_shift, green_shift, blue_shift, then three padding
 * bytes. `Serialize` and `Decode` state the layout; `WriteTo` and `FromBytes`
 * do the same work step by step on a byte buffer.
 */
module PixelFormatWire {
  import opened Wrappers
  import opened Wire
  import opened PixelFormats

  /** Size in bytes of the wire record. */
  const WireSize: nat := 16

  /** Offset of the three padding bytes. */
  const PaddingOffset: nat := 13

  /** Why reading a record failed. */
  datatype IoError = UnexpectedEof

  /** The bytes written for p. */
  function Serialize(p: PixelFormat): (r: seq<u8>)
    ensures |r| == WireSize
    ensures r[PaddingOffset..] == [0, 0, 0]
  {
    [p.bitsPerPixel, p.depth, p.bigEndianFlag, p.trueColourFlag]
    + BigEndian16(p.redMax) + BigEndian16(p.greenMax) + BigEndian16(p.blueMax)
    + [p.redShift, p.greenShift, p.blueShift]
    + [0, 0, 0]
  }

  /**
   * The record read from the front of s, or UnexpectedEof when s holds fewer
   * than 16 bytes. The record read is the one whose bytes, up to the padding,
   * are those of s.
   */
  function Decode(s: seq<u8>): (r: Result<PixelFormat, IoError>)
    ensures r.Failure? <==> |s| < WireSize
    ensures r.Failure? ==> r.error == UnexpectedEof
    ensures r.Success? ==> Serialize(r.value)[..PaddingOffset] == s[..PaddingOffset]
  {
    if |s| < WireSize then Failure(UnexpectedEof)
    else
      var p := PixelFormat(
        s[0], s[1], s[2], s[3],
        FromBigEndian16(s[4], s[5]),
        FromBigEndian16(s[6], s[7]),
        FromBigEndian16(s[8], s[9]),
        s[10], s[11], s[12]);
      BytesOfFromBigEndian16(s[4], s[5]);
      BytesOfFromBigEndian16(s[6], s[7]);
      BytesOfFromBigEndian16(s[8], s[9]);
      SerializeLayout(p);
      SerializePrefix(p, s);
      Success(p)
  }

  /** A 13-byte prefix agrees with the record of p when every field's bytes do. */
  lemma SerializePrefix(p: PixelFormat, s: seq<u8>)
    requires |s| >= WireSize
    requires Serialize(p)[0] == s[0] && Serialize(p)[1] == s[1]
    requires Serialize(p)[2] == s[2] && Serialize(p)[3] == s[3]
    requires Serialize(p)[4..6] == s[4..6] && Serialize(p)[6..8] == s[6..8] && Serialize(p)[8..10] == s[8..10]
    requires Serialize(p)[10] == s[10] && Serialize(p)[11] == s[11] && Serialize(p)[12] == s[12]
    ensures Serialize(p)[..PaddingOffset] == s[..PaddingOffset]
  {
    forall i | 0 <= i < PaddingOffset
      ensures Serialize(p)[i] == s[i]
    {
      if 4 <= i < 6 {
        assert Serialize(p)[i] == Serialize(p)[4..6][i - 4] == s[4..6][i - 4];
      } else if 6 <= i < 8 {
        assert Serialize(p)[i] == Serialize(p)[6..8][i - 6] == s[6..8][i - 6];
      } else if 8 <= i < 10 {
        assert Serialize(p)[i] == Serialize(p)[8..10][i - 8] == s[8..10][i - 8];
      }
    }
  }

  /** Byte by byte, the layout of the record. */
  lemma SerializeLayout(p: PixelFormat)
    ensures Serialize(p)[0] == p.bitsPerPixel
    ensures Serialize(p)[1] == p.depth
    ensures Serialize(p)[2] == p.bigEndianFlag
    ensures Serialize(p)[3] == p.trueColourFlag
    ensures Serialize(p)[4..6] == BigEndian16(p.redMax)
    ensures Serialize(p)[6..8] == BigEndian16(p.greenMax)
    ensures Serialize(p)[8..10] == BigEndian16(p.blueMax)
    ensures Serialize(p)[10] == p.redShift
    ensures Serialize(p)[11] == p.greenShift
    ensures Serialize(p)[12] == p.blueShift
  {
  }

  /** Reading the record written for p, whatever follows it, gives p back. */
  lemma DecodeSerialize(p: PixelFormat, rest: seq<u8>)
    ensures Decode(Serialize(p) + rest) == Success(p)
  {
    var s := Serialize(p) + rest;
    SerializeLayout(p);
    FromBigEndian16OfBytes(p.redMax);
    FromBigEndian16OfBytes(p.greenMax);
    FromBigEndian16OfBytes(p.blueMax);
    assert s[4] == BigEndian16(p.redMax)[0] && s[5] == BigEndian16(p.redMax)[1];
    assert s[6] == BigEndian16(p.greenMax)[0] && s[7] == BigEndian16(p.greenMax)[1];
    assert s[8] == BigEndian16(p.blueMax)[0] && s[9] == BigEndian16(p.blueMax)[1];
  }

  /**
   * Conversely, a record whose padding is zero is exactly the bytes written
   * for the format read from it.
   */
  lemma SerializeDecode(s: seq<u8>)
    requires |s| >= WireSize
    requires s[PaddingOffset..WireSize] == [0, 0, 0]
    ensures Decode(s).Success?
    ensures Serialize(Decode(s).value) == s[..WireSize]
  {
    var p := Decode(s).value;
    BytesOfFromBigEndian16(s[4], s[5]);
    BytesOfFromBigEndian16(s[6], s[7]);
    BytesOfFromBigEndian16(s[8], s[9]);
    SerializeLayout(p);
    assert Serialize(p)[PaddingOffset..] == s[PaddingOffset..WireSize];
    forall i | 0 <= i < WireSize
      ensures Serialize(p)[i] == s[i]
    {
      if 4 <= i < 6 {
        assert Serialize(p)[i] == Serialize(p)[4..6][i - 4];
      } else if 6 <= i < 8 {
        assert Serialize(p)[i] == Serialize(p)[6..8][i - 6];
      } else if 8 <= i < 10 {
        assert Serialize(p)[i] == Serialize(p)[8..10][i - 8];
      } else if i >= PaddingOffset {
        assert Serialize(p)[i] == Serialize(p)[PaddingOffset..][i - PaddingOffset];
      }
    }
  }

  /** Fewer than 16 bytes is an end-of-data error. */
  lemma DecodeShort(s: seq<u8>)
    requires |s| < WireSize
    ensures Decode(s) == Failure(UnexpectedEof)
  {
  }

  /**
   * Only the first 13 bytes decide the record: two buffers of at least 16
   * bytes that agree there, whatever their padding and what follows, decode alike.
   */
  lemma DecodeIgnoresPadding(s: seq<u8>, t: seq<u8>)
    requires |s| >= WireSize && |t| >= WireSize
    requires s[..PaddingOffset] == t[..PaddingOffset]
    ensures Decode(s) == Decode(t)
  {
    assert forall i :: 0 <= i < PaddingOffset ==> s[i] == s[..PaddingOffset][i] == t[..PaddingOffset][i] == t[i];
  }

  /** Different formats are written as different bytes. */
  lemma SerializeInjective(p: PixelFormat, q: PixelFormat)
    requires Serialize(p) == Serialize(q)
    ensures p == q
  {
    DecodeSerialize(p, []);
    DecodeSerialize(q, []);
    assert Serialize(p) + [] == Serialize(p);
    assert Serialize(q) + [] == Serialize(q);
  }

  /** Appends the 16-byte record for p to buf, leaving the earlier contents alone. */
  method WriteTo(p: PixelFormat, buf: ByteBuf)
    modifies buf
    ensures buf.bytes == old(buf.bytes) + Serialize(p)
  {
    buf.PutU8(p.bitsPerPixel);
    buf.PutU8(p.depth);
    buf.PutU8(p.bigEndianFlag);
    buf.PutU8(p.trueColourFlag);
    buf.PutU16(p.redMax);
    buf.PutU16(p.greenMax);
    buf.PutU16(p.blueMax);
    buf.PutU8(p.redShift);
    buf.PutU8(p.greenShift);
    buf.PutU8(p.blueShift);
    buf.PutBytes(0, 3);
    assert seq(3, _ => 0 as u8) == [0, 0, 0];
  }

  /**
   * Reads a record from the front of buf. With fewer than 16 bytes it fails
   * with UnexpectedEof and consumes nothing; otherwise it consumes exactly 16.
   */
  method FromBytes(buf: ByteBuf) returns (r: Result<PixelFormat, IoError>)
    modifies buf
    ensures r == Decode(old(buf.bytes))
    ensures buf.bytes == if r.Failure? then old(buf.bytes) else old(buf.bytes)[WireSize..]
  {
    if |buf.bytes| < 16 {
      return Failure(UnexpectedEof);
    }
    ghost var s := buf.bytes;
    var bitsPerPixel := buf.GetU8();
    var depth := buf.GetU8();
    var bigEndianFlag := buf.GetU8();
    var trueColourFlag := buf.GetU8();
    var redMax := buf.GetU16();
    var greenMax := buf.GetU16();
    var blueMax := buf.GetU16();
    var redShift := buf.GetU8();
    var greenShift := buf.GetU8();
    var blueShift := buf.GetU8();
    buf.Advance(3);
    FromBigEndian16OfBytes(redMax);
    FromBigEndian16OfBytes(greenMax);
    FromBigEndian16OfBytes(blueMax);
    assert s[4..6] == BigEndian16(redMax);
    assert s[6..8] == BigEndian16(greenMax);
    assert s[8..10] == BigEndian16(blueMax);
    r := Success(PixelFormat(bitsPerPixel, depth, bigEndianFlag, trueColourFlag,
      redMax, greenMax, blueMax, redShift, greenShift, blueShift));
  }

  /**
   * Writing p into an empty buffer, appending `tail`, and reading a record
   * back yields p and leaves exactly `tail` unread.
   */
  method WriteThenRead(p: PixelFormat, tail: seq<u8>) returns (r: Result<PixelFormat, IoError>, rest: seq<u8>)
    ensures r == Success(p)
    ensures rest == tail
  {
    var buf := new ByteBuf([]);
    WriteTo(p, buf);
    buf.ExtendFromSlice(tail);
    assert buf.bytes == Serialize(p) + tail;
    DecodeSerialize(p, tail);
    r := FromBytes(buf);
    rest := buf.bytes;
  }
}
