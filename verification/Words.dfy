/** Fixed-width unsigned integers and their byte encodings. */
module Words {

  type U8 = x: int | 0 <= x < 0x100
  type U16 = x: int | 0 <= x < 0x1_0000
  type U32 = x: int | 0 <= x < 0x1_0000_0000
  type U64 = x: int | 0 <= x < 0x1_0000_0000_0000_0000

  /** Truncation to 32 bits, which is also what 32-bit unsigned arithmetic does to its results. */
  function Wrap32(x: int): U32 {
    x % 0x1_0000_0000
  }

  /** A 32-bit pattern read as a signed integer. */
  function Signed32(x: U32): int {
    if x < 0x8000_0000 then x else x - 0x1_0000_0000
  }

  /** A 32-bit value as a little-endian machine stores it. */
  function Le32(x: U32): (b: seq<U8>)
    ensures |b| == 4
  {
    var n: int := x;
    [n % 0x100, n / 0x100 % 0x100, n / 0x1_0000 % 0x100, n / 0x100_0000]
  }

  /** The 32-bit value a little-endian machine loads from offset `i`. */
  function GetLe32(b: seq<U8>, i: nat): U32
    requires i + 4 <= |b|
  {
    var b0: int, b1: int, b2: int, b3: int := b[i], b[i + 1], b[i + 2], b[i + 3];
    b0 + 0x100 * b1 + 0x1_0000 * b2 + 0x100_0000 * b3
  }

  /** The 32-bit value in network byte order at offset `i`. */
  function GetBe32(b: seq<U8>, i: nat): U32
    requires i + 4 <= |b|
  {
    var b0: int, b1: int, b2: int, b3: int := b[i], b[i + 1], b[i + 2], b[i + 3];
    0x100_0000 * b0 + 0x1_0000 * b1 + 0x100 * b2 + b3
  }

  function GetBe16(b: seq<U8>, i: nat): U16
    requires i + 2 <= |b|
  {
    var b0: int, b1: int := b[i], b[i + 1];
    0x100 * b0 + b1
  }

  /** htonl and ntohl on a little-endian machine. */
  function SwapBytes32(x: U32): U32 {
    GetBe32(Le32(x), 0)
  }

  lemma FourBytes(b0: U8, b1: U8, b2: U8, b3: U8)
    ensures var n: int := (b0 as int) + 0x100 * (b1 as int) + 0x1_0000 * (b2 as int) + 0x100_0000 * (b3 as int);
            n < 0x1_0000_0000 && Le32(n) == [b0, b1, b2, b3]
  {
    var b01: int := (b0 as int) + 0x100 * (b1 as int);
    var b012: int := b01 + 0x1_0000 * (b2 as int);
    var n: int := b012 + 0x100_0000 * (b3 as int);
    assert n / 0x100 == (b1 as int) + 0x100 * (b2 as int) + 0x1_0000 * (b3 as int);
    assert n / 0x1_0000 == (b2 as int) + 0x100 * (b3 as int);
  }

  lemma Le32Value(x: U32)
    ensures GetLe32(Le32(x), 0) == x
  {
    var n: int := x;
    assert n / 0x100 == n / 0x1_0000 * 0x100 + n / 0x100 % 0x100;
    assert n / 0x1_0000 == n / 0x100_0000 * 0x100 + n / 0x1_0000 % 0x100;
  }

  lemma Le32RoundTrip(x: U32, b: seq<U8>, i: nat)
    requires i + 4 <= |b| && b[i..i + 4] == Le32(x)
    ensures GetLe32(b, i) == x
  {
    Le32Value(x);
    var w := b[i..i + 4];
    assert b[i] == w[0] && b[i + 1] == w[1] && b[i + 2] == w[2] && b[i + 3] == w[3];
    hide Le32;
  }

  lemma SwapBytesInvolution(x: U32)
    ensures SwapBytes32(SwapBytes32(x)) == x
  {
    var b := Le32(x);
    Le32Value(x);
    FourBytes(b[3], b[2], b[1], b[0]);
    hide Le32;
  }

  /** (~n + 1) & 3: the bytes that pad `n` up to a multiple of four. */
  function Pad4(n: int): (p: nat)
    ensures p < 4 && (n + p) % 4 == 0
  {
    (-n) % 4
  }
}
