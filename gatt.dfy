/**
 * Types shared by both ends of the sensor link: bytes, the signed 16-bit
 * integer carried by the temperature and humidity characteristics, and
 * GATT attribute identifiers.
 */
module Gatt {

  /** One octet of a characteristic value. */
  type Byte = bv8

  /** The byte whose value is `x`, for `x` in 0 .. 15. */
  function NibbleByte(x: int): (b: Byte)
    requires 0 <= x < 0x10
  {
    if x < 8 then
      if x < 4 then (if x < 2 then (if x == 0 then 0x0 else 0x1) else (if x == 2 then 0x2 else 0x3))
      else (if x < 6 then (if x == 4 then 0x4 else 0x5) else (if x == 6 then 0x6 else 0x7))
    else
      if x < 12 then (if x < 10 then (if x == 8 then 0x8 else 0x9) else (if x == 10 then 0xA else 0xB))
      else (if x < 14 then (if x == 12 then 0xC else 0xD) else (if x == 14 then 0xE else 0xF))
  }

  lemma NibbleByteValue(x: int)
    requires 0 <= x < 0x10
    ensures NibbleByte(x) as int == x
    ensures NibbleByte(x) < 0x10
  {
  }

  /** Placing a high nibble above a low one adds 16 times its value. */
  lemma NibblesCombine(hi: Byte, lo: Byte)
    requires hi < 0x10 && lo < 0x10
    ensures ((hi << 4) | lo) as int == 0x10 * hi as int + lo as int
  {
  }

  /** The byte whose value is `n`, assembled from its two hexadecimal digits. */
  function ByteOf(n: int): (b: Byte)
    requires 0 <= n < 0x100
    ensures b as int == n
  {
    NibbleByteValue(n / 0x10);
    NibbleByteValue(n % 0x10);
    NibblesCombine(NibbleByte(n / 0x10), NibbleByte(n % 0x10));
    (NibbleByte(n / 0x10) << 4) | NibbleByte(n % 0x10)
  }

  /** A two's-complement 16-bit integer (Swift's Int16, struct format 'h'). */
  newtype Int16 = x: int | -0x8000 <= x < 0x8000

  /** The 16-bit two's-complement pattern of `v`, read as an unsigned number. */
  function ToUnsigned(v: Int16): (u: int)
    ensures 0 <= u < 0x10000
    ensures u % 0x10000 == (v as int) % 0x10000
  {
    if v < 0 then v as int + 0x10000 else v as int
  }

  /** The Int16 whose two's-complement pattern is the unsigned 16-bit number `u`. */
  function ToSigned(u: int): (v: Int16)
    requires 0 <= u < 0x10000
    ensures ToUnsigned(v) == u
    ensures v < 0 <==> u >= 0x8000
  {
    if u >= 0x8000 then (u - 0x10000) as Int16 else u as Int16
  }

  /** Two's complement is a bijection between Int16 and 0 .. 0xFFFF. */
  lemma SignedUnsignedInverse(v: Int16)
    ensures ToSigned(ToUnsigned(v)) == v
  {
  }

  /** The unsigned number that the bytes `lo`, `hi` spell in little-endian order. */
  function LittleEndian16(lo: Byte, hi: Byte): (u: int)
    ensures 0 <= u < 0x10000
  {
    ByteRange(lo);
    ByteRange(hi);
    lo as int + 0x100 * hi as int
  }

  /** A byte read as an integer lies in 0 .. 255. */
  lemma ByteRange(b: Byte)
    ensures 0 <= b as int < 0x100
  {
  }

  /** A GATT identifier: a 16-bit standard one or a 128-bit vendor one in text form. */
  datatype Uuid = Uuid16(short: bv16) | Uuid128(text: string)

  /** No element of `s` occurs twice. */
  predicate Distinct<T(==)>(s: seq<T>) {
    forall i, j :: 0 <= i < j < |s| ==> s[i] != s[j]
  }
}
