/**
 * Machine integers, the Rust result shapes, and the `bytes::BytesMut` write
 * buffer shared by the codecs and the chat hub.
 */
module Base {

  /** Rust's fixed-width unsigned integers. */
  newtype u8 = x: int | 0 <= x < 0x100
  newtype u16 = x: int | 0 <= x < 0x1_0000
  newtype u32 = x: int | 0 <= x < 0x1_0000_0000

  datatype Option<T> = None | Some(value: T)

  /** The `std::io::ErrorKind` values the modelled code creates. */
  datatype ErrorKind = BrokenPipe

  /** `std::io::Result<T>`. */
  datatype IoResult<T> = Ok(value: T) | Err(kind: ErrorKind)

  /** How a call ends when it contains an `unwrap` that can fail: it either
      returns normally or panics (and its task is abandoned). */
  datatype Unwind<T> = Returns(value: T) | Panics

  /** The bytes of an ASCII string literal, as `str::as_bytes` gives them. */
  function Ascii(s: string): (r: seq<u8>)
    requires forall i :: 0 <= i < |s| ==> s[i] as int < 0x80
    ensures |r| == |s|
    ensures forall i :: 0 <= i < |s| ==> r[i] as int == s[i] as int
  {
    seq(|s|, i requires 0 <= i < |s| => s[i] as int as u8)
  }

  /** Big-endian (network order) bytes of a `u16`, as `put_u16_be` writes them. */
  function BeU16(v: u16): seq<u8>
  {
    [(v as int / 0x100) as u8, (v as int % 0x100) as u8]
  }

  /** Big-endian (network order) bytes of a `u32`, as `put_u32_be` writes them:
      the high half, then the low half. */
  function BeU32(v: u32): seq<u8>
  {
    BeU16((v as int / 0x1_0000) as u16) + BeU16((v as int % 0x1_0000) as u16)
  }

  /** The `u16` whose big-endian bytes are `hi lo` (`get_u16_be`). */
  function FromBe16(hi: u8, lo: u8): u16
  {
    (hi as int * 0x100 + lo as int) as u16
  }

  /** The `u32` whose big-endian bytes are `b0 b1 b2 b3` (`get_u32_be`). */
  function FromBe32(b0: u8, b1: u8, b2: u8, b3: u8): u32
  {
    (FromBe16(b0, b1) as int * 0x1_0000 + FromBe16(b2, b3) as int) as u32
  }

  /** Reading the two bytes `put_u16_be` writes gives the value back. */
  lemma BeU16Decodes(v: u16)
    ensures |BeU16(v)| == 2 && FromBe16(BeU16(v)[0], BeU16(v)[1]) == v
  {
  }

  /** Reading the four bytes `put_u32_be` writes gives the value back. */
  lemma BeU32Decodes(v: u32)
    ensures |BeU32(v)| == 4 && FromBe32(BeU32(v)[0], BeU32(v)[1], BeU32(v)[2], BeU32(v)[3]) == v
  {
    var hi, lo := (v as int / 0x1_0000) as u16, (v as int % 0x1_0000) as u16;
    BeU16Decodes(hi);
    BeU16Decodes(lo);
    assert BeU32(v) == BeU16(hi) + BeU16(lo);
  }

  /** Writing the value read from two bytes gives those bytes again. */
  lemma BeU16Inverse(hi: u8, lo: u8)
    ensures BeU16(FromBe16(hi, lo)) == [hi, lo]
  {
    var n := hi as int * 0x100 + lo as int;
    assert n / 0x100 == hi as int && n % 0x100 == lo as int;
  }

  /** Writing the value read from four bytes gives those bytes again. */
  lemma BeU32Inverse(b0: u8, b1: u8, b2: u8, b3: u8)
    ensures BeU32(FromBe32(b0, b1, b2, b3)) == [b0, b1, b2, b3]
  {
    var hi, lo := FromBe16(b0, b1), FromBe16(b2, b3);
    var v := FromBe32(b0, b1, b2, b3);
    assert v as int == hi as int * 0x1_0000 + lo as int;
    assert v as int / 0x1_0000 == hi as int && v as int % 0x1_0000 == lo as int;
    BeU16Inverse(b0, b1);
    BeU16Inverse(b2, b3);
    assert BeU32(v) == BeU16(hi) + BeU16(lo);
  }

  /** `bytes::BytesMut` as a byte buffer that is appended to in place. Only
      its contents are modelled, not its capacity: the real `put_*` methods
      panic when the spare capacity is too small, and here every append
      succeeds. */
  class BytesMut {
    var data: seq<u8>

    constructor (init: seq<u8>)
      ensures data == init
    {
      data := init;
    }

    method PutU8(v: u8)
      modifies this
      ensures data == old(data) + [v]
    {
      data := data + [v];
    }

    method PutU16Be(v: u16)
      modifies this
      ensures data == old(data) + BeU16(v)
    {
      data := data + BeU16(v);
    }

    method PutU32Be(v: u32)
      modifies this
      ensures data == old(data) + BeU32(v)
    {
      data := data + BeU32(v);
    }

    method PutSlice(s: seq<u8>)
      modifies this
      ensures data == old(data) + s
    {
      data := data + s;
    }
  }
}
