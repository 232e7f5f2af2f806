/**
 * Memory as the ESP32 lays it out: bytes, `uint32_t` values, and the byte
 * image of a `uint32_t`, which is little-endian (`memcpy` of a 32-bit value
 * into a byte buffer, and back).
 */
module LittleEndian {

  /** `uint8_t`: one EEPROM cell or one byte of a struct. */
  newtype byte = x: int | 0 <= x < 0x100

  /** `uint32_t`. */
  newtype u32 = x: int | 0 <= x < 0x1_0000_0000

  /** The four bytes `memcpy(buf, &x, 4)` stores, least significant first. */
  function U32ToBytes(x: u32): (r: seq<byte>)
    ensures |r| == 4
  {
    var q1 := x as int / 0x100;
    var q2 := q1 / 0x100;
    var q3 := q2 / 0x100;
    [(x as int % 0x100) as byte, (q1 % 0x100) as byte, (q2 % 0x100) as byte, q3 as byte]
  }

  /** The value `memcpy(&x, buf, 4)` reads from four bytes. */
  function BytesToU32(b: seq<byte>): u32
    requires |b| == 4
  {
    (b[0] as int + 0x100 * (b[1] as int + 0x100 * (b[2] as int + 0x100 * b[3] as int))) as u32
  }

  lemma BytesToU32OfU32ToBytes(x: u32)
    ensures BytesToU32(U32ToBytes(x)) == x
  {
    var v := x as int;
    var q1 := v / 0x100;
    var q2 := q1 / 0x100;
    var q3 := q2 / 0x100;
    assert v == 0x100 * q1 + v % 0x100;
    assert q1 == 0x100 * q2 + q1 % 0x100;
    assert q2 == 0x100 * q3 + q2 % 0x100;
  }

  lemma U32ToBytesOfBytesToU32(b: seq<byte>)
    requires |b| == 4
    ensures U32ToBytes(BytesToU32(b)) == b
  {
    var v := BytesToU32(b) as int;
    var q1 := b[1] as int + 0x100 * (b[2] as int + 0x100 * b[3] as int);
    var q2 := b[2] as int + 0x100 * b[3] as int;
    assert v == b[0] as int + 0x100 * q1;
    assert v / 0x100 == q1 && v % 0x100 == b[0] as int;
    assert q1 / 0x100 == q2 && q1 % 0x100 == b[1] as int;
    assert q2 / 0x100 == b[3] as int && q2 % 0x100 == b[2] as int;
  }

  /** Two values with the same byte image are equal: the encoding loses nothing. */
  lemma U32ToBytesInjective(x: u32, y: u32)
    requires U32ToBytes(x) == U32ToBytes(y)
    ensures x == y
  {
    BytesToU32OfU32ToBytes(x);
    BytesToU32OfU32ToBytes(y);
  }
}
