/** Fixed-width unsigned integers and their little-endian encoding in a byte
    buffer. The reader reinterprets packed structs in host order; the model
    assumes a little-endian host. */
module Bytes {

  type byte = b: int | 0 <= b < 0x100
  type u16 = x: int | 0 <= x < 0x1_0000
  type u32 = x: int | 0 <= x < 0x1_0000_0000

  const U32Modulus: int := 0x1_0000_0000

  /** Conversion of an unbounded integer to `uint32`, as C++ performs it when a
      (possibly wrapped) `size_t` value is stored into a `uint32`: reduction
      modulo 2^32. In-range values are kept; every value lands in the same
      residue class it came from. */
  function ToU32(x: int): (r: u32)
    ensures 0 <= x < U32Modulus ==> r == x
    ensures (x - r) % U32Modulus == 0
  {
    x % U32Modulus
  }

  /** Within one modulus of the `uint32` range, the conversion adds or
      subtracts 2^32 at most once. */
  lemma ToU32WrapsOnce(x: int)
    requires -U32Modulus <= x < 2 * U32Modulus
    ensures ToU32(x) == if x < 0 then x + U32Modulus else if x < U32Modulus then x else x - U32Modulus
  {
  }

  /** The little-endian `uint16` stored at `data[off..off + 2]`. */
  function LoadU16(data: seq<byte>, off: nat): u16
    requires off + 2 <= |data|
  {
    data[off] as int + 0x100 * data[off + 1] as int
  }

  /** The little-endian `uint32` stored at `data[off..off + 4]`. */
  function LoadU32(data: seq<byte>, off: nat): u32
    requires off + 4 <= |data|
  {
    data[off] as int + 0x100 * (data[off + 1] as int + 0x100 * (data[off + 2] as int + 0x100 * data[off + 3] as int))
  }

  /** The two bytes that encode `x` in little-endian order. */
  function StoreU16(x: u16): (s: seq<byte>)
    ensures |s| == 2
  {
    [x % 0x100, x / 0x100]
  }

  /** The four bytes that encode `x` in little-endian order. */
  function StoreU32(x: u32): (s: seq<byte>)
    ensures |s| == 4
  {
    [x % 0x100, (x / 0x100) % 0x100, (x / 0x1_0000) % 0x100, x / 0x100_0000]
  }

  /** Loading the two stored bytes back yields the value stored. */
  lemma LoadStoreU16(x: u16)
    ensures LoadU16(StoreU16(x), 0) == x
  {
  }

  /** Loading the four stored bytes back yields the value stored. */
  lemma LoadStoreU32(x: u32)
    ensures LoadU32(StoreU32(x), 0) == x
  {
    var q1 := x / 0x100;
    var q2 := q1 / 0x100;
    var q3 := q2 / 0x100;
    DivTwice(x, q1, q2);
    DivThrice(x);
    var s := StoreU32(x);
    assert s[1] == q1 % 0x100 && s[2] == q2 % 0x100 && s[3] == q3;
    assert q2 == s[2] + 0x100 * s[3];
    assert q1 == s[1] + 0x100 * q2;
    assert x == s[0] + 0x100 * q1;
  }

  /** Re-encoding the `uint32` loaded from a buffer reproduces the buffer's
      four bytes: no two byte strings decode to the same value. */
  lemma StoreLoadU32(data: seq<byte>, off: nat)
    requires off + 4 <= |data|
    ensures StoreU32(LoadU32(data, off)) == data[off..off + 4]
  {
    var b0, b1, b2, b3 := data[off] as int, data[off + 1] as int, data[off + 2] as int, data[off + 3] as int;
    var hi2 := b2 + 0x100 * b3;
    var hi1 := b1 + 0x100 * hi2;
    var x := LoadU32(data, off);
    assert x == b0 + 0x100 * hi1;
    SplitByte(b0, hi1);
    SplitByte(b1, hi2);
    SplitByte(b2, b3);
    assert x / 0x1_0000 == hi2 by { DivTwice(x, hi1, hi2); }
    assert x / 0x100_0000 == b3 by { DivTwice(x, hi1, hi2); DivTwice(x / 0x100, hi2, b3); DivThrice(x); }
  }

  /** Re-encoding the `uint16` loaded from a buffer reproduces its two bytes. */
  lemma StoreLoadU16(data: seq<byte>, off: nat)
    requires off + 2 <= |data|
    ensures StoreU16(LoadU16(data, off)) == data[off..off + 2]
  {
    SplitByte(data[off], data[off + 1]);
  }

  /** One base-256 digit split off the bottom of a number. */
  lemma SplitByte(lo: int, hi: int)
    requires 0 <= lo < 0x100
    ensures (lo + 0x100 * hi) % 0x100 == lo
    ensures (lo + 0x100 * hi) / 0x100 == hi
  {
  }

  /** Dividing by 256 twice is dividing by 65536. */
  lemma DivTwice(x: int, q1: int, q2: int)
    requires 0 <= x
    requires x / 0x100 == q1 && q1 / 0x100 == q2
    ensures x / 0x1_0000 == q2
  {
  }

  /** Dividing by 256 three times is dividing by 2^24. */
  lemma DivThrice(x: int)
    requires 0 <= x
    ensures x / 0x100_0000 == ((x / 0x100) / 0x100) / 0x100
  {
  }

  /** A load reads only its own bytes: it agrees with the same load on the
      isolated four-byte window. */
  lemma LoadU32Window(data: seq<byte>, off: nat)
    requires off + 4 <= |data|
    ensures LoadU32(data, off) == LoadU32(data[off..off + 4], 0)
  {
  }

  /** The same for a two-byte load. */
  lemma LoadU16Window(data: seq<byte>, off: nat)
    requires off + 2 <= |data|
    ensures LoadU16(data, off) == LoadU16(data[off..off + 2], 0)
  {
  }
}
