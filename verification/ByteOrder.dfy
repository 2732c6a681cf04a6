/** Bytes, and the little-endian macros of libuvc_internal.h on unsigned values. */
module ByteOrder {
  const TWO8 := 0x100
  const TWO16 := 0x1_0000
  const TWO24 := 0x100_0000
  const TWO32 := 0x1_0000_0000

  type byte = x: int | 0 <= x < TWO8
  type u16 = x: int | 0 <= x < TWO16
  type u32 = x: int | 0 <= x < TWO32

  /** SW_TO_SHORT */
  function Short(b: seq<byte>, at: nat): u16
    requires at + 2 <= |b|
  {
    b[at] + b[at + 1] * TWO8
  }

  /** DW_TO_INT */
  function Int(b: seq<byte>, at: nat): u32
    requires at + 4 <= |b|
  {
    b[at] + b[at + 1] * TWO8 + b[at + 2] * TWO16 + b[at + 3] * TWO24
  }

  /** SHORT_TO_SW */
  function FromShort(v: u16): (b: seq<byte>)
    ensures |b| == 2 && Short(b, 0) == v
  {
    [v % TWO8, v / TWO8]
  }

  /** INT_TO_DW */
  function FromInt(v: u32): (b: seq<byte>)
    ensures |b| == 4 && Int(b, 0) == v
  {
    var v8 := v / TWO8;      // v >> 8
    var v16 := v8 / TWO8;    // v >> 16
    var v24 := v16 / TWO8;   // v >> 24
    [v % TWO8, v8 % TWO8, v16 % TWO8, v24]
  }

  /** Bit k of a byte, for the flag tests `x & (1 << k)`. */
  predicate Bit(x: byte, k: nat)
    requires k < 8
  {
    x / [1, 2, 4, 8, 16, 32, 64, 128][k] % 2 == 1
  }
}
