/** Bytes, big-endian and little-endian fields, and the option type. */
module Bytes {
  type byte = x: int | 0 <= x < 256
  type u16 = x: int | 0 <= x < 0x1_0000
  type u32 = x: int | 0 <= x < 0x1_0000_0000

  datatype Option<+T> = None | Some(value: T)

  function High(n: u16): byte {
    n / 256
  }

  function Low(n: u16): byte {
    n % 256
  }

  function Pair(high: byte, low: byte): u16 {
    high * 256 + low
  }

  function BigEndian16(n: u16): (b: seq<byte>)
    ensures |b| == 2
  {
    [High(n), Low(n)]
  }

  function BigEndian32(n: u32): (b: seq<byte>)
    ensures |b| == 4
  {
    BigEndian16(n / 0x1_0000) + BigEndian16(n % 0x1_0000)
  }

  function Quad(b: seq<byte>): u32
    requires |b| == 4
  {
    Pair(b[0], b[1]) * 0x1_0000 + Pair(b[2], b[3])
  }

  lemma PairOf(n: u16)
    ensures Pair(High(n), Low(n)) == n
  {}

  lemma QuadOf(n: u32)
    ensures Quad(BigEndian32(n)) == n
  {
    PairOf(n / 0x1_0000);
    PairOf(n % 0x1_0000);
  }

  function LittleEndian16(n: u16): (b: seq<byte>)
    ensures |b| == 2
  {
    [Low(n), High(n)]
  }

  function LittleEndian32(n: u32): (b: seq<byte>)
    ensures |b| == 4
  {
    LittleEndian16(n % 0x1_0000) + LittleEndian16(n / 0x1_0000)
  }

  function LittleQuad(b: seq<byte>): u32
    requires |b| == 4
  {
    Pair(b[3], b[2]) * 0x1_0000 + Pair(b[1], b[0])
  }

  lemma LittleQuadOf(n: u32)
    ensures LittleQuad(LittleEndian32(n)) == n
  {
    PairOf(n % 0x1_0000);
    PairOf(n / 0x1_0000);
  }

  /** The number with these bytes, lowest first. */
  function Value16(b0: int, b1: int): int {
    b0 + 256 * b1
  }

  function Value32(b0: int, b1: int, b2: int, b3: int): int {
    b0 + 256 * b1 + 65536 * b2 + 16777216 * b3
  }

  function Zeros(n: nat): (z: seq<byte>)
    ensures |z| == n && forall k :: 0 <= k < n ==> z[k] == 0
  {
    seq(n, _ => 0)
  }

  function Power2(n: nat): (p: nat)
    ensures p > 0
  {
    if n == 0 then 1 else 2 * Power2(n - 1)
  }

  function One(b: bool): nat {
    if b then 1 else 0
  }

  function Min(a: int, b: int): int {
    if a <= b then a else b
  }

  lemma Associative<T>(a: seq<T>, b: seq<T>, c: seq<T>)
    ensures (a + b) + c == a + (b + c)
  {}

  lemma NothingBefore<T>(a: seq<T>)
    ensures [] + a == a
  {}

  lemma LastApart<T>(s: seq<T>)
    requires s != []
    ensures s == s[..|s| - 1] + [s[|s| - 1]]
  {}
}
