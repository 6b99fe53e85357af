/**
 * Byte order and alignment.  The host is little-endian: a memcpy of a word
 * writes its least significant byte first, and the codec swaps the word
 * before that when the stream is big-endian.  Masks and shifts are written
 * as division and remainder by powers of two.
 */
module ByteOrder {
  import opened Basics

  /** The endianness byte of a message; every value but 'B' means no swap. */
  const LITTLE: byte := 108
  const BIG: byte := 66

  predicate IsWidth(n: int) { n == 2 || n == 4 || n == 8 }

  function Limit(n: int): int
    requires IsWidth(n)
  {
    if n == 2 then TWO_16 else if n == 4 then TWO_32 else TWO_64
  }

  function Bswap16(v: u16): u16 {
    v / 256 + v % 256 * 256
  }

  function Bswap32(v: u32): u32 {
    v / 0x100_0000 + v / 0x1_0000 % 256 * 256 + v / 256 % 256 * 0x1_0000 + v % 256 * 0x100_0000
  }

  function Bswap64(v: u64): u64 {
    Bswap32(v % TWO_32) * TWO_32 + Bswap32(v / TWO_32)
  }

  function Bswap(v: nat, n: int): (r: nat)
    requires IsWidth(n) && v < Limit(n)
    ensures r < Limit(n)
  {
    if n == 2 then Bswap16(v) else if n == 4 then Bswap32(v) else Bswap64(v)
  }

  // The bytes memcpy moves between a word and a buffer.

  function Host16(v: u16): bytes { [v % 256, v / 256] }

  function Host32(v: u32): bytes {
    [v % 256, v / 256 % 256, v / 0x1_0000 % 256, v / 0x100_0000]
  }

  function HostBytes(v: nat, n: int): (bs: bytes)
    requires IsWidth(n) && v < Limit(n)
    ensures |bs| == n
  {
    if n == 2 then Host16(v)
    else if n == 4 then Host32(v)
    else Host32(v % TWO_32) + Host32(v / TWO_32)
  }

  function Value32(b0: byte, b1: byte, b2: byte, b3: byte): u32 {
    b0 + b1 * 256 + b2 * 0x1_0000 + b3 * 0x100_0000
  }

  function HostValue(bs: bytes): (v: nat)
    requires IsWidth(|bs|)
    ensures v < Limit(|bs|)
  {
    if |bs| == 2 then bs[0] + bs[1] * 256
    else if |bs| == 4 then Value32(bs[0], bs[1], bs[2], bs[3])
    else Value32(bs[0], bs[1], bs[2], bs[3]) + Value32(bs[4], bs[5], bs[6], bs[7]) * TWO_32
  }

  /** A word as the writers put it on the wire. */
  function ToWire(v: nat, n: int, e: byte): (bs: bytes)
    requires IsWidth(n) && v < Limit(n)
    ensures |bs| == n
  {
    HostBytes(if e == BIG then Bswap(v, n) else v, n)
  }

  /** A word as the readers take it off the wire. */
  function FromWire(bs: bytes, e: byte): (v: nat)
    requires IsWidth(|bs|)
    ensures v < Limit(|bs|)
  {
    var v := HostValue(bs);
    if e == BIG then Bswap(v, |bs|) else v
  }

  lemma DivMod(m: int, q: int, r: int)
    requires m == 2 || m == 4 || m == 8 || m == 0x100 || m == 0x1_0000 || m == 0x100_0000 || m == TWO_32
    requires 0 <= r < m
    ensures (r + q * m) / m == q && (r + q * m) % m == r
  {
  }

  /** The four bytes of a word, as the masks and shifts of the source pick them out. */
  lemma Digits32(b0: byte, b1: byte, b2: byte, b3: byte)
    ensures var v := Value32(b0, b1, b2, b3);
      v % 256 == b0 && v / 256 % 256 == b1 && v / 0x1_0000 % 256 == b2 && v / 0x100_0000 == b3
  {
    var v := Value32(b0, b1, b2, b3);
    DivMod(0x100, b1 + b2 * 256 + b3 * 0x1_0000, b0);
    assert v / 256 == b1 + b2 * 256 + b3 * 0x1_0000;
    DivMod(0x100, b2 + b3 * 256, b1);
    DivMod(0x1_0000, b2 + b3 * 256, b0 + b1 * 256);
    assert v / 0x1_0000 == b2 + b3 * 256;
    DivMod(0x100, b3, b2);
    DivMod(0x100_0000, b3, b0 + b1 * 256 + b2 * 0x1_0000);
  }

  lemma Bytes32(b0: byte, b1: byte, b2: byte, b3: byte)
    ensures Host32(Value32(b0, b1, b2, b3)) == [b0, b1, b2, b3]
    ensures Bswap32(Value32(b0, b1, b2, b3)) == Value32(b3, b2, b1, b0)
  {
    Digits32(b0, b1, b2, b3);
  }

  lemma OfBytes32(v: u32) returns (b0: byte, b1: byte, b2: byte, b3: byte)
    ensures v == Value32(b0, b1, b2, b3)
  {
    var v1 := v / 256;
    var v2 := v1 / 256;
    b0, b1, b2, b3 := v % 256, v1 % 256, v2 % 256, v2 / 256;
  }

  lemma Bswap32Involution(v: u32)
    ensures Bswap32(Bswap32(v)) == v
  {
    var b0, b1, b2, b3 := OfBytes32(v);
    Bytes32(b0, b1, b2, b3);
    Bytes32(b3, b2, b1, b0);
  }

  lemma Host32RoundTrip(v: u32)
    ensures HostValue(Host32(v)) == v
  {
    var b0, b1, b2, b3 := OfBytes32(v);
    Bytes32(b0, b1, b2, b3);
  }

  lemma Bswap16Swaps(b0: byte, b1: byte)
    ensures Host16(b0 + b1 * 256) == [b0, b1]
    ensures Bswap16(b0 + b1 * 256) == b1 + b0 * 256
  {
    DivMod(0x100, b1, b0);
  }

  lemma Bswap64Halves(v: u64)
    ensures Bswap64(v) % TWO_32 == Bswap32(v / TWO_32)
    ensures Bswap64(v) / TWO_32 == Bswap32(v % TWO_32)
  {
    DivMod(TWO_32, Bswap32(v % TWO_32), Bswap32(v / TWO_32));
  }

  /** Swapping twice gives the word back, at every width. */
  lemma BswapInvolution(v: nat, n: int)
    requires IsWidth(n) && v < Limit(n)
    ensures Bswap(Bswap(v, n), n) == v
  {
    if n == 2 {
      Bswap16Swaps(v % 256, v / 256);
      Bswap16Swaps(v / 256, v % 256);
    } else if n == 4 {
      Bswap32Involution(v);
    } else {
      Bswap32Involution(v % TWO_32);
      Bswap32Involution(v / TWO_32);
      Bswap64Halves(v);
    }
  }

  lemma HostRoundTrip(v: nat, n: int)
    requires IsWidth(n) && v < Limit(n)
    ensures HostValue(HostBytes(v, n)) == v
  {
    if n == 4 {
      Host32RoundTrip(v);
    } else if n == 8 {
      Host32RoundTrip(v % TWO_32);
      Host32RoundTrip(v / TWO_32);
    }
  }

  /** A reader gets back the word a writer put, in either byte order. */
  lemma WireRoundTrip(v: nat, n: int, e: byte)
    requires IsWidth(n) && v < Limit(n)
    ensures FromWire(ToWire(v, n, e), e) == v
  {
    if e == BIG {
      HostRoundTrip(Bswap(v, n), n);
      BswapInvolution(v, n);
    } else {
      HostRoundTrip(v, n);
    }
  }

  function Reversed(bs: bytes): (r: bytes)
    ensures |r| == |bs|
  {
    seq(|bs|, i requires 0 <= i < |bs| => bs[|bs| - 1 - i])
  }

  lemma Host32Swapped(v: u32)
    ensures Host32(Bswap32(v)) == Reversed(Host32(v))
  {
    var b0, b1, b2, b3 := OfBytes32(v);
    Bytes32(b0, b1, b2, b3);
    Bytes32(b3, b2, b1, b0);
  }

  /** Big-endian output is the little-endian output read backwards: the most significant byte first. */
  lemma BigIsReversedLittle(v: nat, n: int)
    requires IsWidth(n) && v < Limit(n)
    ensures ToWire(v, n, BIG) == Reversed(ToWire(v, n, LITTLE))
  {
    if n == 2 {
      Bswap16Swaps(v % 256, v / 256);
      Bswap16Swaps(v / 256, v % 256);
    } else if n == 4 {
      Host32Swapped(v);
    } else {
      Bswap64Halves(v);
      Host32Swapped(v % TWO_32);
      Host32Swapped(v / TWO_32);
    }
  }

  /** Zero bytes needed to bring offset `pos` to a multiple of `a`. */
  function Pad(pos: nat, a: int): (p: nat)
    requires IsWidth(a)
    ensures p < a && (pos + p) % a == 0
  {
    var rem := pos % a;
    if rem == 0 then 0 else a - rem
  }

  /** Offsets that differ by whole 8-byte blocks need the same padding. */
  lemma PadShift(pos: nat, blocks: nat, a: int)
    requires IsWidth(a)
    ensures Pad(8 * blocks + pos, a) == Pad(pos, a)
  {
    if a == 2 {
      DivMod(2, 4 * blocks + pos / 2, pos % 2);
    } else if a == 4 {
      DivMod(4, 2 * blocks + pos / 4, pos % 4);
    } else {
      DivMod(8, blocks + pos / 8, pos % 8);
    }
  }
}
