/** Bytes, byte strings and the little-endian numbers the companion protocol uses. */
module Bytes {
  type byte = x: int | 0 <= x < 256

  type Bytes = seq<byte>

  datatype Option<+T> = None | Some(value: T)

  /** `n.to_bytes(2, "little")`, for numbers that fit. */
  function LE16(n: nat): (b: Bytes)
    requires n < 0x1_0000
    ensures |b| == 2 && FromLE16(b) == n
  {
    [n % 256, n / 256]
  }

  function FromLE16(b: Bytes): nat
    requires |b| == 2
  {
    b[0] as int + 256 * b[1] as int
  }

  /** `n.to_bytes(4, "little")`, for numbers that fit; `struct.pack("<I", n)` is the same. */
  function LE32(n: nat): (b: Bytes)
    requires n < 0x1_0000_0000
    ensures |b| == 4 && FromLE32(b) == n
  {
    LE16(n % 0x1_0000) + LE16(n / 0x1_0000)
  }

  function FromLE32(b: Bytes): nat
    requires |b| == 4
  {
    FromLE16(b[..2]) + 0x1_0000 * FromLE16(b[2..])
  }

  lemma LE16Inverse(b: Bytes)
    requires |b| == 2
    ensures FromLE16(b) < 0x1_0000 && LE16(FromLE16(b)) == b
  {
  }

  /** Four bytes are determined by the number they spell. */
  lemma LE32Inverse(b: Bytes)
    requires |b| == 4
    ensures FromLE32(b) < 0x1_0000_0000 && LE32(FromLE32(b)) == b
  {
    LE16Inverse(b[..2]);
    LE16Inverse(b[2..]);
    SplitInverse(FromLE16(b[..2]), FromLE16(b[2..]));
    hide LE16, FromLE16;
    assert b == b[..2] + b[2..];
  }

  lemma SplitInverse(low: nat, high: nat)
    requires low < 0x1_0000 && high < 0x1_0000
    ensures (low + 0x1_0000 * high) % 0x1_0000 == low && (low + 0x1_0000 * high) / 0x1_0000 == high
  {
  }
}
