/** Byte strings, and the fixed-width integer encodings the wire formats use.

    A Rust `&str` or `String` is modelled by its UTF-8 bytes, so every statement about a
    `Text` holds for all byte strings, well-formed UTF-8 included. */
module Bytes {

  type u8 = bv8
  type Bytes = seq<u8>
  type Text = seq<u8>

  /** The result of a 256-bit hash. */
  type Digest = d: Bytes | |d| == 32 witness seq(32, _ => 0)

  /** A collection length or a `usize` value on a 64-bit target. */
  const USIZE_LIMIT: nat := 0x1_0000_0000_0000_0000
  type usize = n: nat | n < USIZE_LIMIT

  function Min(a: nat, b: nat): nat { if a <= b then a else b }
  function SaturatingAdd(a: nat, b: nat): nat { Min(a + b, USIZE_LIMIT - 1) }
  function SaturatingMul(a: nat, b: nat): nat { Min(a * b, USIZE_LIMIT - 1) }

  // ---------------------------------------------------------------------------------------
  // One byte as a number
  // ---------------------------------------------------------------------------------------

  /** The low byte of n. */
  function ByteOf(n: nat): u8 {
    (n % 256) as u8
  }

  function Value(b: u8): (n: nat)
    ensures n < 256
  {
    b as nat
  }

  lemma ByteOfValue(b: u8)
    ensures ByteOf(Value(b)) == b
  {
    assert (b as nat) as u8 == b;
    assert Value(b) % 256 == Value(b);
  }

  lemma NextByte(b: u8)
    requires b != 255
    ensures Value(b + 1) == Value(b) + 1
  {
  }

  /** Every small number is the value of some byte: count up from 0. */
  lemma {:induction false} SomeByte(n: nat) returns (b: u8)
    requires n < 256
    ensures Value(b) == n
  {
    if n == 0 {
      b := 0;
    } else {
      b := SomeByte(n - 1);
      assert Value(255) == 255;
      NextByte(b);
      b := b + 1;
    }
  }

  lemma ValueOfByte(n: nat)
    ensures Value(ByteOf(n)) == n % 256
  {
    var b := SomeByte(n % 256);
    ByteOfValue(b);
  }

  // ---------------------------------------------------------------------------------------
  // Fixed-width integers
  // ---------------------------------------------------------------------------------------

  function Pow256(k: nat): (p: nat)
    ensures p >= 1
  {
    if k == 0 then 1 else 256 * Pow256(k - 1)
  }

  /** `to_be_bytes` of an unsigned integer of `width` bytes holding n (reduced to that width). */
  function BE(n: nat, width: nat): (b: Bytes)
    ensures |b| == width
  {
    if width == 0 then [] else BE(n / 256, width - 1) + [ByteOf(n)]
  }

  /** `from_be_bytes`. */
  function FromBE(b: Bytes): (n: nat)
    ensures n < Pow256(|b|)
  {
    if b == [] then 0 else 256 * FromBE(b[..|b| - 1]) + Value(b[|b| - 1])
  }

  /** `to_le_bytes`. */
  function LE(n: nat, width: nat): (b: Bytes)
    ensures |b| == width
  {
    if width == 0 then [] else [ByteOf(n)] + LE(n / 256, width - 1)
  }

  lemma {:induction false} FromBEOfBE(n: nat, width: nat)
    requires n < Pow256(width)
    ensures FromBE(BE(n, width)) == n
  {
    hide ByteOf, Value;
    if width > 0 {
      FromBEOfBE(n / 256, width - 1);
      ValueOfByte(n);
      assert BE(n, width)[..width - 1] == BE(n / 256, width - 1);
    }
  }

  lemma {:induction false} BEOfFromBE(b: Bytes)
    ensures BE(FromBE(b), |b|) == b
  {
    if b != [] {
      BEOfFromBE(b[..|b| - 1]);
      BESnoc(FromBE(b[..|b| - 1]), b[|b| - 1], |b| - 1);
    }
  }

  lemma BESnoc(hi: nat, b: u8, width: nat)
    ensures BE(256 * hi + Value(b), width + 1) == BE(hi, width) + [b]
  {
    LowByte(hi, b);
  }

  lemma LowByte(hi: nat, b: u8)
    ensures ByteOf(256 * hi + Value(b)) == b && (256 * hi + Value(b)) / 256 == hi
  {
    hide Value;
    ByteOfValue(b);
    assert (256 * hi + Value(b)) % 256 == Value(b) % 256;
  }

  lemma {:induction false} LEInjective(m: nat, n: nat, width: nat)
    requires m < Pow256(width) && n < Pow256(width)
    requires LE(m, width) == LE(n, width)
    ensures m == n
  {
    hide ByteOf, Value;
    if width > 0 {
      assert LE(m, width)[0] == LE(n, width)[0];
      ValueOfByte(m);
      ValueOfByte(n);
      assert LE(m, width)[1..] == LE(m / 256, width - 1);
      assert LE(n, width)[1..] == LE(n / 256, width - 1);
      LEInjective(m / 256, n / 256, width - 1);
    }
  }

  lemma BEInjective(m: nat, n: nat, width: nat)
    requires m < Pow256(width) && n < Pow256(width)
    requires BE(m, width) == BE(n, width)
    ensures m == n
  {
    FromBEOfBE(m, width);
    FromBEOfBE(n, width);
  }

  /** The widths in use: 32-bit offsets and 64-bit lengths. */
  lemma Widths()
    ensures Pow256(4) == 0x1_0000_0000
    ensures Pow256(8) == USIZE_LIMIT
  {
    assert Pow256(4) == 0x1_0000_0000;
    assert Pow256(5) == 0x100_0000_0000;
    assert Pow256(6) == 0x1_0000_0000_0000;
    assert Pow256(7) == 0x100_0000_0000_0000;
  }
}
