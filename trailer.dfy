/** The 8-byte trailer at the end of the stitching engine's NV21 output buffer:
    the mosaic's width and then its height, each a big-endian two's-complement `int`. */
module Trailer {
  import opened JavaInt

  const TRAILER_LENGTH: nat := 8

  /** The value of four big-endian bytes read as one unsigned 32-bit number. */
  function UnsignedBigEndian(b0: Int8, b1: Int8, b2: Int8, b3: Int8): (u: int)
    ensures 0 <= u < TWO_32
  {
    Unsigned8(b0) * 0x100_0000 + Unsigned8(b1) * 0x1_0000 + Unsigned8(b2) * 0x100 + Unsigned8(b3)
  }

  /** Reference reading of four bytes as a big-endian two's-complement `int`. */
  function SignedBigEndian(b0: Int8, b1: Int8, b2: Int8, b3: Int8): Int32 {
    Wrap32(UnsignedBigEndian(b0, b1, b2, b3))
  }

  /** The decoding exactly as the source writes it:
      `(b0 << 24) + ((b1 & 0xFF) << 16) + ((b2 & 0xFF) << 8) + (b3 & 0xFF)`
      with every operator on Java's 32-bit `int`, evaluated left to right. */
  function DecodeInt32(b0: Int8, b1: Int8, b2: Int8, b3: Int8): Int32 {
    Add32(Add32(Add32(Shl32(b0, 24), Shl32(Unsigned8(b1), 16)), Shl32(Unsigned8(b2), 8)), Unsigned8(b3))
  }

  /** The source's decoding is the big-endian two's-complement reading of the four bytes,
      and it equals the exact sum with the first byte taken as signed. */
  lemma DecodeInt32Value(b0: Int8, b1: Int8, b2: Int8, b3: Int8)
    ensures DecodeInt32(b0, b1, b2, b3) == SignedBigEndian(b0, b1, b2, b3)
    ensures DecodeInt32(b0, b1, b2, b3) == b0 * 0x100_0000 + Unsigned8(b1) * 0x1_0000 + Unsigned8(b2) * 0x100 + Unsigned8(b3)
  {
    JavaDecodeDoesNotWrap(b0, b1, b2, b3);
    ExactIsSignedBigEndian(b0, b1, b2, b3);
  }

  /** None of the shifts and additions in the source's decoding leaves the `int` range, so
      it computes the exact sum. */
  lemma JavaDecodeDoesNotWrap(b0: Int8, b1: Int8, b2: Int8, b3: Int8)
    ensures Add32(Add32(Add32(Shl32(b0, 24), Shl32(Unsigned8(b1), 16)), Shl32(Unsigned8(b2), 8)), Unsigned8(b3))
         == b0 * 0x100_0000 + Unsigned8(b1) * 0x1_0000 + Unsigned8(b2) * 0x100 + Unsigned8(b3)
  {
    SignedHighByteShift(b0);
    var s0 := Shl32(b0, 24);
    var s1 := Shl32(Unsigned8(b1), 16);
    var s2 := Shl32(Unsigned8(b2), 8);
    assert s1 == Unsigned8(b1) * 0x1_0000;
    assert s2 == Unsigned8(b2) * 0x100;
    var a1 := Add32(s0, s1);
    assert a1 == s0 + s1;
    var a2 := Add32(a1, s2);
    assert a2 == a1 + s2;
    assert Add32(a2, Unsigned8(b3)) == a2 + Unsigned8(b3);
  }

  /** The exact sum with a signed first byte is the two's-complement reading of the four
      bytes read as one unsigned number. */
  lemma ExactIsSignedBigEndian(b0: Int8, b1: Int8, b2: Int8, b3: Int8)
    ensures b0 * 0x100_0000 + Unsigned8(b1) * 0x1_0000 + Unsigned8(b2) * 0x100 + Unsigned8(b3)
         == SignedBigEndian(b0, b1, b2, b3)
  {
    var u := UnsignedBigEndian(b0, b1, b2, b3);
    assert u % TWO_32 == u;
    if b0 < 0 {
      assert Unsigned8(b0) == b0 + TWO_8;
      assert u >= TWO_31;
    } else {
      assert u < TWO_31;
    }
  }

  /** Writes an `int` as four big-endian bytes, most significant first. */
  function EncodeInt32(x: Int32): (bs: seq<Int8>)
    ensures |bs| == 4
  {
    var u := x % TWO_32;
    var q1 := u / 0x100;
    var q2 := q1 / 0x100;
    var q3 := q2 / 0x100;
    [ToInt8(q3), ToInt8(q2 % 0x100), ToInt8(q1 % 0x100), ToInt8(u % 0x100)]
  }

  /** The sign of an encoded `int` is the high bit of its first byte. */
  lemma EncodedSign(x: Int32)
    ensures EncodeInt32(x)[0] < 0 <==> x < 0
  {
    var bs := EncodeInt32(x);
    EncodingDigits(x);
    var rest := Unsigned8(bs[1]) * 0x1_0000 + Unsigned8(bs[2]) * 0x100 + Unsigned8(bs[3]);
    assert 0 <= rest < 0x100_0000;
    assert x % TWO_32 == Unsigned8(bs[0]) * 0x100_0000 + rest;
    if x < 0 {
      assert x % TWO_32 == x + TWO_32;
    }
  }

  /** Euclidean division by 256 is determined by quotient and remainder. */
  lemma DivMod256(n: int, q: int, r: int)
    requires n == q * 0x100 + r && 0 <= r < 0x100
    ensures n / 0x100 == q && n % 0x100 == r
  {
  }

  /** Decoding what was encoded gives back the same `int`. */
  lemma DecodeEncode(x: Int32)
    ensures var bs := EncodeInt32(x); DecodeInt32(bs[0], bs[1], bs[2], bs[3]) == x
  {
    var bs := EncodeInt32(x);
    EncodingDigits(x);
    DecodeInt32Value(bs[0], bs[1], bs[2], bs[3]);
    Wrap32OfResidue(x);
  }

  /** The four bytes of an encoding are the base-256 digits of the `int` read as unsigned. */
  lemma EncodingDigits(x: Int32)
    ensures var bs := EncodeInt32(x); UnsignedBigEndian(bs[0], bs[1], bs[2], bs[3]) == x % TWO_32
  {
    var u := x % TWO_32;
    var q1 := u / 0x100;
    var q2 := q1 / 0x100;
    var q3 := q2 / 0x100;
    assert u == q1 * 0x100 + u % 0x100;
    assert q1 == q2 * 0x100 + q1 % 0x100;
    assert q2 == q3 * 0x100 + q2 % 0x100;
    assert 0 <= q3 < 0x100;
    assert u == q3 * 0x100_0000 + q2 % 0x100 * 0x1_0000 + q1 % 0x100 * 0x100 + u % 0x100;
  }

  /** Encoding what was decoded gives back the same four bytes: the decoding is a bijection
      between four-byte sequences and 32-bit values. */
  lemma EncodeDecode(b0: Int8, b1: Int8, b2: Int8, b3: Int8)
    ensures EncodeInt32(DecodeInt32(b0, b1, b2, b3)) == [b0, b1, b2, b3]
  {
    var x := DecodeInt32(b0, b1, b2, b3);
    DecodeInt32Value(b0, b1, b2, b3);
    var u0, u1, u2, u3 := Unsigned8(b0), Unsigned8(b1), Unsigned8(b2), Unsigned8(b3);
    var u := UnsignedBigEndian(b0, b1, b2, b3);
    assert x % TWO_32 == u;
    var q1, q2 := (u0 * 0x100 + u1) * 0x100 + u2, u0 * 0x100 + u1;
    DivMod256(u, q1, u3);
    DivMod256(q1, q2, u2);
    DivMod256(q2, u0, u1);
    assert EncodeInt32(x) == [ToInt8(u0), ToInt8(u1), ToInt8(u2), ToInt8(u3)];
    ToInt8OfUnsigned(b0);
    ToInt8OfUnsigned(b1);
    ToInt8OfUnsigned(b2);
    ToInt8OfUnsigned(b3);
  }

  /** A decoded value is positive exactly when the first byte's high bit is clear and not all
      four bytes are zero; in particular a first byte with its high bit set gives a negative
      value. */
  lemma DecodePositive(b0: Int8, b1: Int8, b2: Int8, b3: Int8)
    ensures DecodeInt32(b0, b1, b2, b3) > 0 <==> b0 >= 0 && (b0, b1, b2, b3) != (0, 0, 0, 0)
    ensures b0 < 0 ==> DecodeInt32(b0, b1, b2, b3) < 0
  {
    DecodeInt32Value(b0, b1, b2, b3);
  }

  /** The width stored in the trailer of `buf`, read from positions |buf|-8 .. |buf|-5. */
  function Width(buf: seq<Int8>): Int32
    requires |buf| >= TRAILER_LENGTH
  {
    var len := |buf| - TRAILER_LENGTH;
    DecodeInt32(buf[len], buf[len + 1], buf[len + 2], buf[len + 3])
  }

  /** The height stored in the trailer of `buf`, read from positions |buf|-4 .. |buf|-1. */
  function Height(buf: seq<Int8>): Int32
    requires |buf| >= TRAILER_LENGTH
  {
    var len := |buf| - TRAILER_LENGTH;
    DecodeInt32(buf[len + 4], buf[len + 5], buf[len + 6], buf[len + 7])
  }

  /** A width whose first trailer byte has its high bit set is negative. */
  lemma HighBitWidthIsNegative(buf: seq<Int8>)
    requires |buf| >= TRAILER_LENGTH && buf[|buf| - 8] < 0
    ensures Width(buf) < 0
  {
    var len := |buf| - TRAILER_LENGTH;
    DecodeNegative(buf[len], buf[len + 1], buf[len + 2], buf[len + 3]);
  }

  /** A height whose first trailer byte has its high bit set is negative. */
  lemma HighBitHeightIsNegative(buf: seq<Int8>)
    requires |buf| >= TRAILER_LENGTH && buf[|buf| - 4] < 0
    ensures Height(buf) < 0
  {
    var len := |buf| - TRAILER_LENGTH;
    DecodeNegative(buf[len + 4], buf[len + 5], buf[len + 6], buf[len + 7]);
  }

  lemma DecodeNegative(b0: Int8, b1: Int8, b2: Int8, b3: Int8)
    requires b0 < 0
    ensures DecodeInt32(b0, b1, b2, b3) < 0
  {
    DecodePositive(b0, b1, b2, b3);
  }

  /** Appends a trailer for `width` and `height` to the pixel data. */
  function AppendTrailer(pixels: seq<Int8>, width: Int32, height: Int32): (buf: seq<Int8>)
    ensures |buf| == |pixels| + TRAILER_LENGTH
    ensures buf[..|pixels|] == pixels
  {
    pixels + EncodeInt32(width) + EncodeInt32(height)
  }

  /** Trailer round trip: whatever precedes it, a trailer written for any `width` and `height`
      reads back as exactly that width and height. */
  lemma {:induction false} TrailerRoundTrip(pixels: seq<Int8>, width: Int32, height: Int32)
    ensures Width(AppendTrailer(pixels, width, height)) == width
    ensures Height(AppendTrailer(pixels, width, height)) == height
  {
    var buf := AppendTrailer(pixels, width, height);
    var w, h := EncodeInt32(width), EncodeInt32(height);
    var len := |pixels|;
    assert buf[len..len + 4] == w && buf[len + 4..] == h;
    assert buf[len] == w[0] && buf[len + 1] == w[1] && buf[len + 2] == w[2] && buf[len + 3] == w[3];
    assert buf[len + 4] == h[0] && buf[len + 5] == h[1] && buf[len + 6] == h[2] && buf[len + 7] == h[3];
    DecodeEncode(width);
    DecodeEncode(height);
  }

  /** Conversely, every buffer of at least eight bytes is its own leading bytes followed by the
      trailer of the width and height it decodes to. */
  lemma {:induction false} TrailerSplit(buf: seq<Int8>)
    requires |buf| >= TRAILER_LENGTH
    ensures buf == AppendTrailer(buf[..|buf| - TRAILER_LENGTH], Width(buf), Height(buf))
  {
    var len := |buf| - TRAILER_LENGTH;
    EncodeDecode(buf[len], buf[len + 1], buf[len + 2], buf[len + 3]);
    EncodeDecode(buf[len + 4], buf[len + 5], buf[len + 6], buf[len + 7]);
    assert buf[len..len + 4] == [buf[len], buf[len + 1], buf[len + 2], buf[len + 3]];
    assert buf[len + 4..] == [buf[len + 4], buf[len + 5], buf[len + 6], buf[len + 7]];
    assert buf == buf[..len] + buf[len..len + 4] + buf[len + 4..];
  }
}
