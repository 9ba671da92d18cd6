/** Bytes and the little-endian readers of the image inspectors. */
module Bytes {

  type Byte = b: int | 0 <= b < 256

  function Le16(d: seq<Byte>, at: nat): (v: nat)
    requires at + 2 <= |d|
    ensures v < 0x1_0000
  {
    d[at] as int + 0x100 * (d[at + 1] as int)
  }

  function Le32(d: seq<Byte>, at: nat): (v: nat)
    requires at + 4 <= |d|
    ensures v < 0x1_0000_0000
  {
    Le16(d, at) + 0x1_0000 * Le16(d, at + 2)
  }

  function Le64(d: seq<Byte>, at: nat): (v: nat)
    requires at + 8 <= |d|
    ensures v < 0x1_0000_0000_0000_0000
  {
    Le32(d, at) + 0x1_0000_0000 * Le32(d, at + 4)
  }
}
