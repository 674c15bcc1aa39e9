/** Fixed-width integers, byte strings and the two byte orders used in flash. */
module Bytes {

  const U32: int := 0x1_0000_0000

  type byte = x: int | 0 <= x < 256
  type u16 = x: int | 0 <= x < 0x1_0000
  type u32 = x: int | 0 <= x < 0x1_0000_0000

  /** A six-byte hardware address. */
  type Mac = m: seq<byte> | |m| == 6 witness [0, 0, 0, 0, 0, 0]

  const NO_MAC: Mac := [0, 0, 0, 0, 0, 0]

  datatype Option<+T> = None | Some(value: T)

  // Little-endian, as a packed struct field lands in memory on this chip.

  function Le(x: nat, width: nat): (b: seq<byte>)
    ensures |b| == width
  {
    if width == 0 then [] else [x % 256] + Le(x / 256, width - 1)
  }

  function FromLe(b: seq<byte>): (x: nat)
    ensures x < Span(|b|)
  {
    if b == [] then 0 else b[0] + 256 * FromLe(b[1..])
  }

  // Big-endian: an address is kept in network order wherever it is stored, so
  // its bytes run from the most significant octet down.

  function Be(x: nat, width: nat): (b: seq<byte>)
    ensures |b| == width
  {
    if width == 0 then [] else Be(x / 256, width - 1) + [x % 256]
  }

  function FromBe(b: seq<byte>): (x: nat)
    ensures x < Span(|b|)
  {
    if b == [] then 0 else 256 * FromBe(b[..|b| - 1]) + b[|b| - 1]
  }

  /** How many values `width` bytes can hold. */
  function Span(width: nat): (n: nat)
    ensures width == 1 ==> n == 0x100
    ensures width == 2 ==> n == 0x1_0000
    ensures width == 3 ==> n == 0x100_0000
    ensures width == 4 ==> n == 0x1_0000_0000
  {
    if width == 0 then 1 else 256 * Span(width - 1)
  }

  lemma {:induction false} LeRoundTrip(x: nat, width: nat)
    requires x < Span(width)
    ensures FromLe(Le(x, width)) == x
  {
    if width > 0 {
      LeRoundTrip(x / 256, width - 1);
      assert Le(x, width)[1..] == Le(x / 256, width - 1);
    }
  }

  lemma {:induction false} BeRoundTrip(x: nat, width: nat)
    requires x < Span(width)
    ensures FromBe(Be(x, width)) == x
  {
    if width > 0 {
      BeRoundTrip(x / 256, width - 1);
      assert Be(x, width)[..width - 1] == Be(x / 256, width - 1);
    }
  }

  /** `len` bytes of `b` starting at `off`, as `memcpy` reads them. */
  function Slice(b: seq<byte>, off: nat, len: nat): (s: seq<byte>)
    requires off + len <= |b|
    ensures |s| == len
  {
    b[off..off + len]
  }

  lemma SliceOfSlice(b: seq<byte>, off: nat, len: nat, at: nat, n: nat)
    requires off + len <= |b| && at + n <= len
    ensures Slice(Slice(b, off, len), at, n) == Slice(b, off + at, n)
  {
    var s := b[off..off + len];
    assert forall k | 0 <= k < len :: s[k] == b[off + k];
    assert s[at..at + n] == b[off + at..off + at + n];
  }
}
