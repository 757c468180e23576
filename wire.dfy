/**
 * Fixed-width integers and the growable byte buffer that the RFB wire code
 * writes to and reads from (`bytes::BytesMut` in the Rust crate).
 */
module Wire {

  /** Unsigned 8-bit integer. */
  newtype u8 = x: int | 0 <= x < 0x100

  /** Unsigned 16-bit integer. */
  newtype u16 = x: int | 0 <= x < 0x1_0000

  /** Signed 32-bit integer. */
  newtype i32 = x: int | -0x8000_0000 <= x < 0x8000_0000

  /** The two bytes of x, most significant first (network byte order). */
  function BigEndian16(x: u16): (r: seq<u8>)
    ensures |r| == 2
  {
    [(x / 0x100) as u8, (x % 0x100) as u8]
  }

  /** The 16-bit value whose big-endian bytes are hi, lo. */
  function FromBigEndian16(hi: u8, lo: u8): (x: u16)
  {
    (hi as int * 0x100 + lo as int) as u16
  }

  /** Reading back the two bytes written for x gives x. */
  lemma FromBigEndian16OfBytes(x: u16)
    ensures FromBigEndian16(BigEndian16(x)[0], BigEndian16(x)[1]) == x
  {
  }

  /** Writing the value read from two bytes gives those two bytes back. */
  lemma BytesOfFromBigEndian16(hi: u8, lo: u8)
    ensures BigEndian16(FromBigEndian16(hi, lo)) == [hi, lo]
  {
  }

  /**
   * A byte buffer with a read cursor at its front and a write end at its back.
   * `bytes` holds the readable bytes; puts append, gets consume from the front.
   */
  class ByteBuf {
    var bytes: seq<u8>

    constructor (init: seq<u8>)
      ensures bytes == init
    {
      bytes := init;
    }

    /** Appends one byte. */
    method PutU8(x: u8)
      modifies this
      ensures bytes == old(bytes) + [x]
    {
      bytes := bytes + [x];
    }

    /** Appends x in big-endian order. */
    method PutU16(x: u16)
      modifies this
      ensures bytes == old(bytes) + BigEndian16(x)
    {
      bytes := bytes + BigEndian16(x);
    }

    /** Appends n copies of the byte v. */
    method PutBytes(v: u8, n: nat)
      modifies this
      ensures bytes == old(bytes) + seq(n, _ => v)
    {
      bytes := bytes + seq(n, _ => v);
    }

    /** Appends every byte of s. */
    method ExtendFromSlice(s: seq<u8>)
      modifies this
      ensures bytes == old(bytes) + s
    {
      bytes := bytes + s;
    }

    /** Consumes and returns the first byte. */
    method GetU8() returns (x: u8)
      requires |bytes| >= 1
      modifies this
      ensures x == old(bytes)[0]
      ensures bytes == old(bytes)[1..]
    {
      x := bytes[0];
      bytes := bytes[1..];
    }

    /** Consumes the first two bytes and returns them read as a big-endian value. */
    method GetU16() returns (x: u16)
      requires |bytes| >= 2
      modifies this
      ensures BigEndian16(x) == old(bytes)[..2]
      ensures bytes == old(bytes)[2..]
    {
      x := FromBigEndian16(bytes[0], bytes[1]);
      BytesOfFromBigEndian16(bytes[0], bytes[1]);
      bytes := bytes[2..];
    }

    /** Discards the first n bytes. */
    method Advance(n: nat)
      requires n <= |bytes|
      modifies this
      ensures bytes == old(bytes)[n..]
    {
      bytes := bytes[n..];
    }
  }
}
