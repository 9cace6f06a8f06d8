/** Java's fixed-width integer arithmetic, as far as the trailer decoding uses it:
    the signed `byte`, the 32-bit `int`, and the operators `<<`, `+` and `& 0xFF`
    on them. Integers in Dafny are unbounded, so every wrap-around is written out. */
module JavaInt {

  const TWO_8: int := 0x100
  const TWO_31: int := 0x8000_0000
  const TWO_32: int := 0x1_0000_0000

  /** A Java `byte`: a signed two's-complement 8-bit value. */
  type Int8 = b: int | -0x80 <= b < 0x80

  /** A Java `int`: a signed two's-complement 32-bit value. */
  type Int32 = x: int | -0x8000_0000 <= x < 0x8000_0000

  /** Java's narrowing of an exact result to `int`: the unique 32-bit value congruent to `x`
      modulo 2^32. */
  function Wrap32(x: int): (r: Int32)
    ensures (r - x) % TWO_32 == 0
    ensures -TWO_31 <= x < TWO_31 ==> r == x
  {
    var m := x % TWO_32;
    if m < TWO_31 then m else m - TWO_32
  }

  /** Narrowing the unsigned reading of an `int` gives the `int` back. */
  lemma Wrap32OfResidue(x: Int32)
    ensures Wrap32(x % TWO_32) == x
  {
    if x < 0 {
      assert x % TWO_32 == x + TWO_32;
    }
  }

  /** Java's `x << k` on an `int`, for the whole-byte shift distances 0, 8, 16 and 24. */
  function Shl32(x: Int32, k: nat): (r: Int32)
    requires k % 8 == 0 && k < 32
    ensures (r - x * ByteShift(k)) % TWO_32 == 0
  {
    Wrap32(x * ByteShift(k))
  }

  /** 2^k for a whole-byte shift distance k. */
  function ByteShift(k: nat): (r: nat)
    requires k % 8 == 0 && k < 32
    ensures r == 1 || r == 0x100 || r == 0x1_0000 || r == 0x100_0000
  {
    if k == 0 then 1 else if k == 8 then 0x100 else if k == 16 then 0x1_0000 else 0x100_0000
  }

  /** Java's `a + b` on two `int`s. */
  function Add32(a: Int32, b: Int32): (r: Int32)
    ensures (r - (a + b)) % TWO_32 == 0
    ensures -TWO_31 <= a + b < TWO_31 ==> r == a + b
  {
    Wrap32(a + b)
  }

  /** Java's `b & 0xFF` on a `byte` promoted to `int`: the byte read as unsigned. */
  function Unsigned8(b: Int8): (r: int)
    ensures 0 <= r < TWO_8
    ensures (r - b) % TWO_8 == 0
    ensures b >= 0 ==> r == b
  {
    if b < 0 then b + TWO_8 else b
  }

  /** Java's `(byte) v` for a value in 0..255: the byte whose unsigned reading is `v`. */
  function ToInt8(v: int): (b: Int8)
    requires 0 <= v < TWO_8
    ensures Unsigned8(b) == v
  {
    if v < 0x80 then v else v - TWO_8
  }

  /** Reading a byte as unsigned and converting back gives the same byte. */
  lemma ToInt8OfUnsigned(b: Int8)
    ensures ToInt8(Unsigned8(b)) == b
  {
  }

  /** Shifting a signed byte by 24 gives the same `int` as shifting its unsigned reading:
      the sign bits that sign extension puts above bit 7 fall off the top, so
      `b << 24 == (b & 0xFF) << 24` in 32-bit arithmetic. */
  lemma SignedHighByteShift(b: Int8)
    ensures Shl32(b, 24) == Shl32(Unsigned8(b), 24)
    ensures Shl32(b, 24) == b * 0x100_0000
  {
    if b < 0 {
      assert Unsigned8(b) * 0x100_0000 == b * 0x100_0000 + TWO_32;
    }
  }
}
