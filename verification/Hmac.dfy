/** HMAC (section 2 of RFC 2104) over any 256-bit hash, its SHA-256 implementation, and the
    tag comparison of src/paginate.rs. */
module Hmac {
  import opened Bytes
  import Fips180
  import Sha256

  type HashFn = Bytes -> Digest

  const BLOCK := 64

  /** The key as one block: hashed when it is longer than a block, then filled with zeros. */
  function BlockKey(H: HashFn, key: Bytes): (k: Bytes)
    ensures |k| == BLOCK
  {
    var short := if |key| > BLOCK then H(key) else key;
    short + seq(BLOCK - |short|, _ => 0)
  }

  function XorAll(k: Bytes, b: u8): (r: Bytes)
    ensures |r| == |k|
  {
    seq(|k|, i requires 0 <= i < |k| => b ^ k[i])
  }

  const IPAD: u8 := 0x36
  const OPAD: u8 := 0x5c

  /** What the inner and the outer hash are computed of. */
  function Inner(H: HashFn, key: Bytes, text: Bytes): Bytes {
    XorAll(BlockKey(H, key), IPAD) + text
  }

  function Outer(H: HashFn, key: Bytes, text: Bytes): Bytes {
    XorAll(BlockKey(H, key), OPAD) + H(Inner(H, key, text))
  }

  function Hmac(H: HashFn, key: Bytes, text: Bytes): Digest {
    H(Outer(H, key, text))
  }

  /** One step of `ipad[i] ^= k[i]`. */
  function XorStep(pad: u8, k: u8): u8 { pad ^ k }

  lemma StepsMakePad(k: Bytes, b: u8, pad: Bytes)
    requires |pad| == |k| && forall i :: 0 <= i < |k| ==> pad[i] == XorStep(b, k[i])
    ensures pad == XorAll(k, b)
  {
  }

  /** `hmac_sha256`. */
  method HmacSha256(key: Bytes, msg: Bytes) returns (tag: Digest)
    ensures tag == Hmac(Fips180.Hash, key, msg)
  {
    hide Fips180.Hash, XorStep, XorAll;
    var k := new u8[BLOCK](_ => 0);
    var short := key;
    if |key| > BLOCK {
      short := Sha256.Sha256(key);
    }
    forall i | 0 <= i < |short| {
      k[i] := short[i];
    }
    assert k[..] == BlockKey(Fips180.Hash, key);
    var ipad := new u8[BLOCK](_ => 0x36);
    var opad := new u8[BLOCK](_ => 0x5c);
    for i := 0 to BLOCK
      invariant k[..] == BlockKey(Fips180.Hash, key)
      invariant forall j :: 0 <= j < i ==> ipad[j] == XorStep(0x36, k[j]) && opad[j] == XorStep(0x5c, k[j])
      invariant forall j :: i <= j < BLOCK ==> ipad[j] == 0x36 && opad[j] == 0x5c
    {
      ipad[i] := XorStep(ipad[i], k[i]);
      opad[i] := XorStep(opad[i], k[i]);
    }
    StepsMakePad(k[..], 0x36, ipad[..]);
    StepsMakePad(k[..], 0x5c, opad[..]);
    var inner := Sha256.Sha256(ipad[..] + msg);
    tag := Sha256.Sha256(opad[..] + inner);
  }

  // ---------------------------------------------------------------------------------------
  // What a tag depends on
  // ---------------------------------------------------------------------------------------

  lemma XorTwice(x: u8, b: u8)
    ensures b ^ (b ^ x) == x
  {
  }

  /** A pad is undone by applying it again; so it determines the block key. */
  lemma PadUndone(k: Bytes, b: u8)
    ensures XorAll(XorAll(k, b), b) == k
  {
    forall i | 0 <= i < |k| ensures XorAll(XorAll(k, b), b)[i] == k[i] {
      XorTwice(k[i], b);
    }
  }

  /** The two hashed inputs, byte by byte: the key, or its hash if it is longer than a block, and
      zeros after it, combined with 0x36 and 0x5c; then the text and the inner hash. */
  lemma InputsAre(H: HashFn, key: Bytes, text: Bytes)
    ensures var inner, outer := Inner(H, key, text), Outer(H, key, text);
      var short := if |key| > 64 then H(key) else key;
      && |inner| == 64 + |text| && inner[64..] == text && outer[64..] == H(inner)
      && forall i :: 0 <= i < 64 ==>
           var b: u8 := if i < |short| then short[i] else 0;
           inner[i] == b ^ 0x36 && outer[i] == b ^ 0x5c
  {
    forall i | 0 <= i < 64
      ensures BlockKey(H, key)[i] ^ 0x36 == 0x36 ^ BlockKey(H, key)[i]
      ensures BlockKey(H, key)[i] ^ 0x5c == 0x5c ^ BlockKey(H, key)[i]
    {
      XorCommutes(BlockKey(H, key)[i], 0x36);
      XorCommutes(BlockKey(H, key)[i], 0x5c);
    }
  }

  lemma XorCommutes(x: u8, y: u8)
    ensures x ^ y == y ^ x
  {
  }

  /** Keys of one length that fit a block have different blocks. */
  lemma BlockDetermines(H: HashFn, k: Bytes, l: Bytes)
    requires |k| == |l| <= BLOCK
    ensures BlockKey(H, k) == BlockKey(H, l) <==> k == l
  {
    assert BlockKey(H, k)[..|k|] == k && BlockKey(H, l)[..|l|] == l;
  }

  /** Different blocks or different texts are always told apart before the last hash, unless the
      inner hash collides; so equal tags of different keys or texts are a collision of H. */
  lemma HashedDiffer(H: HashFn, k: Bytes, l: Bytes, s: Bytes, t: Bytes)
    ensures Inner(H, k, s) == Inner(H, l, t) <==> BlockKey(H, k) == BlockKey(H, l) && s == t
    ensures Outer(H, k, s) == Outer(H, l, t) <==>
      BlockKey(H, k) == BlockKey(H, l) && H(Inner(H, k, s)) == H(Inner(H, l, t))
  {
    PrefixDecides(BlockKey(H, k), BlockKey(H, l), IPAD, s, t);
    PrefixDecides(BlockKey(H, k), BlockKey(H, l), OPAD, H(Inner(H, k, s)), H(Inner(H, l, t)));
  }

  lemma PrefixDecides(k: Bytes, l: Bytes, b: u8, s: Bytes, t: Bytes)
    requires |k| == |l|
    ensures XorAll(k, b) + s == XorAll(l, b) + t <==> k == l && s == t
  {
    hide XorAll;
    var x, y := XorAll(k, b) + s, XorAll(l, b) + t;
    if x == y {
      assert XorAll(k, b) == x[..|k|] == XorAll(l, b);
      PadUndone(k, b);
      PadUndone(l, b);
      assert s == x[|k|..] == t;
    }
  }

  lemma XorZero(x: u8, y: u8, diff: u8)
    ensures diff | (x ^ y) == 0 <==> diff == 0 && x == y
  {
  }

  /** `ct_eq`: every byte is looked at, and the answer is still equality. */
  method CtEq(a: Bytes, b: Bytes) returns (eq: bool)
    ensures eq <==> a == b
  {
    if |a| != |b| {
      return false;
    }
    var diff: u8 := 0;
    for i := 0 to |a|
      invariant diff == 0 <==> a[..i] == b[..i]
    {
      assert a[..i + 1] == a[..i] + [a[i]] && b[..i + 1] == b[..i] + [b[i]];
      XorZero(a[i], b[i], diff);
      diff := diff | (a[i] ^ b[i]);
    }
    assert a[..|a|] == a && b[..|b|] == b;
    return diff == 0;
  }
}
