/** Java's fixed-width integers: `byte` and `int` values, `int` arithmetic
    with wrap-around, and the `& 0xff` reading of a byte. */
module JavaInts {

  /** A Java `byte`. */
  type SByte = b: int | -0x80 <= b < 0x80

  /** A Java `int`. */
  type Int32 = v: int | -0x8000_0000 <= v < 0x8000_0000

  /** Java `int` arithmetic: the result reduced into the 32-bit range. */
  function Wrap32(x: int): (r: Int32)
    ensures (r - x) % 0x1_0000_0000 == 0
    ensures -0x8000_0000 <= x < 0x8000_0000 ==> r == x
  {
    (x + 0x8000_0000) % 0x1_0000_0000 - 0x8000_0000
  }

  /** `b & 0xff`: a byte read as unsigned. */
  function Unsigned(b: SByte): (r: nat)
    ensures r < 0x100 && (r - b) % 0x100 == 0
  {
    if b < 0 then b + 0x100 else b
  }

  /** The Java `byte` with the given unsigned value. */
  function ToSByte(u: nat): (b: SByte)
    requires u < 0x100
    ensures Unsigned(b) == u
  {
    if u >= 0x80 then u - 0x100 else u
  }
}
