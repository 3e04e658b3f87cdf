/** SHA-256 as FIPS 180-4 defines it: the recurrences, with no state to update. */
module Fips180 {
  import opened Bytes

  type Word = bv32

  // Addition modulo 2^32 (section 3.2)
  function Plus(x: Word, y: Word): Word { x + y }
  function Sum4(x: Word, y: Word, z: Word, u: Word): Word { Plus(Plus(Plus(x, y), z), u) }
  function Sum5(x: Word, y: Word, z: Word, u: Word, v: Word): Word { Plus(Sum4(x, y, z, u), v) }

  // Section 4.1.2, every ROTR^n(x) written out as section 3.2 defines it: (x >> n) | (x << 32 - n)
  function Ch(x: Word, y: Word, z: Word): Word { (x & y) ^ (!x & z) }
  function Maj(x: Word, y: Word, z: Word): Word { (x & y) ^ (x & z) ^ (y & z) }
  function BigSigma0(x: Word): Word { ((x >> 2) | (x << 30)) ^ ((x >> 13) | (x << 19)) ^ ((x >> 22) | (x << 10)) }
  function BigSigma1(x: Word): Word { ((x >> 6) | (x << 26)) ^ ((x >> 11) | (x << 21)) ^ ((x >> 25) | (x << 7)) }
  function SmallSigma0(x: Word): Word { ((x >> 7) | (x << 25)) ^ ((x >> 18) | (x << 14)) ^ (x >> 3) }
  function SmallSigma1(x: Word): Word { ((x >> 17) | (x << 15)) ^ ((x >> 19) | (x << 13)) ^ (x >> 10) }

  // Section 4.2.2, eight at a time
  const K0: seq<Word> := [0x428a2f98, 0x71374491, 0xb5c0fbcf, 0xe9b5dba5, 0x3956c25b, 0x59f111f1, 0x923f82a4, 0xab1c5ed5]
  const K1: seq<Word> := [0xd807aa98, 0x12835b01, 0x243185be, 0x550c7dc3, 0x72be5d74, 0x80deb1fe, 0x9bdc06a7, 0xc19bf174]
  const K2: seq<Word> := [0xe49b69c1, 0xefbe4786, 0x0fc19dc6, 0x240ca1cc, 0x2de92c6f, 0x4a7484aa, 0x5cb0a9dc, 0x76f988da]
  const K3: seq<Word> := [0x983e5152, 0xa831c66d, 0xb00327c8, 0xbf597fc7, 0xc6e00bf3, 0xd5a79147, 0x06ca6351, 0x14292967]
  const K4: seq<Word> := [0x27b70a85, 0x2e1b2138, 0x4d2c6dfc, 0x53380d13, 0x650a7354, 0x766a0abb, 0x81c2c92e, 0x92722c85]
  const K5: seq<Word> := [0xa2bfe8a1, 0xa81a664b, 0xc24b8b70, 0xc76c51a3, 0xd192e819, 0xd6990624, 0xf40e3585, 0x106aa070]
  const K6: seq<Word> := [0x19a4c116, 0x1e376c08, 0x2748774c, 0x34b0bcb5, 0x391c0cb3, 0x4ed8aa4a, 0x5b9cca4f, 0x682e6ff3]
  const K7: seq<Word> := [0x748f82ee, 0x78a5636f, 0x84c87814, 0x8cc70208, 0x90befffa, 0xa4506ceb, 0xbef9a3f7, 0xc67178f2]
  const K: seq<seq<Word>> := [K0, K1, K2, K3, K4, K5, K6, K7]

  lemma Rows()
    ensures |K| == 8 && forall r :: 0 <= r < 8 ==> |K[r]| == 8
  {
  }

  function KAt(t: nat): Word
    requires t < 64
  {
    Rows();
    K[t / 8][t % 8]
  }

  // Section 5.1.1: one 1 bit, the fewest zero bits, then the bit length in 64 bits.
  function ZeroBytes(len: nat): (k: nat)
    ensures k < 64 && (len + 1 + k) % 64 == 56
  {
    (119 - len % 64) % 64
  }

  function LengthField(len: nat): (b: Bytes)
    ensures |b| == 8
  {
    BE((8 * len) % USIZE_LIMIT, 8)
  }

  function Pad(d: Bytes): (p: Bytes)
    ensures |p| == |d| + 9 + ZeroBytes(|d|)
  {
    d + [0x80] + seq(ZeroBytes(|d|), _ => 0) + LengthField(|d|)
  }

  lemma ZeroBytesLeast(len: nat, j: nat)
    requires (len + 1 + j) % 64 == 56
    ensures ZeroBytes(len) <= j
  {
  }

  /** No two messages short enough for the length field share a padded form. */
  lemma PadInjective(d: Bytes, e: Bytes)
    requires 8 * |d| < USIZE_LIMIT && 8 * |e| < USIZE_LIMIT
    ensures Pad(d) == Pad(e) ==> d == e
  {
    hide LengthField;
    var p := Pad(d);
    if p == Pad(e) {
      assert p[|p| - 8..] == LengthField(|d|);
      assert p[|p| - 8..] == LengthField(|e|);
      LengthFieldInjective(|d|, |e|);
      assert d == p[..|d|] && e == p[..|e|];
    }
  }

  lemma LengthFieldInjective(m: nat, n: nat)
    requires 8 * m < USIZE_LIMIT && 8 * n < USIZE_LIMIT
    requires LengthField(m) == LengthField(n)
    ensures m == n
  {
    hide BE, Pow256;
    Widths();
    BEInjective(8 * m, 8 * n, 8);
  }

  // Section 3.1: a word and its four bytes, the most significant one first, as numbers to base 256
  function ToWord(b0: u8, b1: u8, b2: u8, b3: u8): Word {
    b0 as bv32 * 0x100_0000 + b1 as bv32 * 0x1_0000 + b2 as bv32 * 0x100 + b3 as bv32
  }

  function OfWord(x: Word): (b: Bytes)
    ensures |b| == 4
  {
    [(x / 0x100_0000 % 0x100) as u8, (x / 0x1_0000 % 0x100) as u8, (x / 0x100 % 0x100) as u8, (x % 0x100) as u8]
  }

  /** The bytes of a word determine it, and are determined by it. */
  lemma WordRoundTrip(x: Word, b0: u8, b1: u8, b2: u8, b3: u8)
    ensures var b := OfWord(x); ToWord(b[0], b[1], b[2], b[3]) == x
    ensures OfWord(ToWord(b0, b1, b2, b3)) == [b0, b1, b2, b3]
  {
  }

  type Chunk = b: Bytes | |b| == 64 witness seq(64, _ => 0)

  function M(b: Chunk, t: nat): Word
    requires t < 16
  {
    ToWord(b[4 * t], b[4 * t + 1], b[4 * t + 2], b[4 * t + 3])
  }

  // Section 6.2.2, step 1
  function W(b: Chunk, t: nat): Word
    requires t < 64
  {
    if t < 16 then M(b, t)
    else Sum4(SmallSigma1(W(b, t - 2)), W(b, t - 7), SmallSigma0(W(b, t - 15)), W(b, t - 16))
  }

  datatype Vars = Vars(a: Word, b: Word, c: Word, d: Word, e: Word, f: Word, g: Word, h: Word)

  // Section 5.3.3
  const H0 := Vars(0x6a09e667, 0xbb67ae85, 0x3c6ef372, 0xa54ff53a, 0x510e527f, 0x9b05688c, 0x1f83d9ab, 0x5be0cd19)

  // Section 6.2.2, step 3
  function T1(v: Vars, k: Word, w: Word): Word {
    Sum5(v.h, BigSigma1(v.e), Ch(v.e, v.f, v.g), k, w)
  }

  function T2(v: Vars): Word {
    Plus(BigSigma0(v.a), Maj(v.a, v.b, v.c))
  }

  function Round(v: Vars, k: Word, w: Word): Vars {
    Vars(Plus(T1(v, k, w), T2(v)), v.a, v.b, v.c, Plus(v.d, T1(v, k, w)), v.e, v.f, v.g)
  }

  function Rounds(b: Chunk, v: Vars, t: nat): Vars
    requires t <= 64
  {
    if t == 0 then v else Round(Rounds(b, v, t - 1), KAt(t - 1), W(b, t - 1))
  }

  // Section 6.2.2, step 4
  function Add(x: Vars, y: Vars): Vars {
    Vars(Plus(x.a, y.a), Plus(x.b, y.b), Plus(x.c, y.c), Plus(x.d, y.d),
         Plus(x.e, y.e), Plus(x.f, y.f), Plus(x.g, y.g), Plus(x.h, y.h))
  }

  function Compress(h: Vars, b: Chunk): Vars {
    Add(Rounds(b, h, 64), h)
  }

  function ChunkAt(p: Bytes, i: nat): Chunk
    requires 64 * i + 64 <= |p|
  {
    p[64 * i..64 * i + 64]
  }

  /** The hash value after the first n chunks. */
  function Chain(p: Bytes, n: nat): Vars
    requires 64 * n <= |p|
  {
    if n == 0 then H0 else Compress(Chain(p, n - 1), ChunkAt(p, n - 1))
  }

  function Flatten(ws: seq<Word>): (b: Bytes)
    ensures |b| == 4 * |ws|
  {
    if ws == [] then [] else Flatten(ws[..|ws| - 1]) + OfWord(ws[|ws| - 1])
  }

  function Output(h: Vars): Digest {
    Flatten([h.a, h.b, h.c, h.d, h.e, h.f, h.g, h.h])
  }

  function Hash(d: Bytes): Digest {
    Output(Chain(Pad(d), |Pad(d)| / 64))
  }
}

/** The implementation of src/audit.rs: one schedule array reused by every chunk and eight
    rolling variables. */
module Sha256 {
  import opened Bytes
  import opened Fips180

  // The mixing expressions as the code writes them, with `rotate_right`.
  function Mix7(x: Word): Word { x.RotateRight(7) ^ x.RotateRight(18) ^ (x >> 3) }
  function Mix17(x: Word): Word { x.RotateRight(17) ^ x.RotateRight(19) ^ (x >> 10) }
  function Mix2(x: Word): Word { x.RotateRight(2) ^ x.RotateRight(13) ^ x.RotateRight(22) }
  function Mix6(x: Word): Word { x.RotateRight(6) ^ x.RotateRight(11) ^ x.RotateRight(25) }

  // `u32::from_be_bytes` and `to_be_bytes`, by shifts.
  function FromBeBytes(b0: u8, b1: u8, b2: u8, b3: u8): Word {
    (b0 as bv32 << 24) | (b1 as bv32 << 16) | (b2 as bv32 << 8) | b3 as bv32
  }

  function ToBeBytes(x: Word): Bytes {
    [((x >> 24) & 0xff) as u8, ((x >> 16) & 0xff) as u8, ((x >> 8) & 0xff) as u8, (x & 0xff) as u8]
  }

  lemma BigEndian(x: Word, b0: u8, b1: u8, b2: u8, b3: u8)
    ensures FromBeBytes(b0, b1, b2, b3) == ToWord(b0, b1, b2, b3) && ToBeBytes(x) == OfWord(x)
  {
  }

  lemma Rotations(x: Word)
    ensures Mix7(x) == SmallSigma0(x) && Mix17(x) == SmallSigma1(x)
    ensures Mix2(x) == BigSigma0(x) && Mix6(x) == BigSigma1(x)
  {
  }

  /** `u32::wrapping_add`. */
  function WrappingAdd(x: Word, y: Word): Word { x + y }

  lemma AddIsPlus(x: Word, y: Word)
    ensures WrappingAdd(x, y) == Plus(x, y)
  {
  }

  lemma Commutes(x: Word, y: Word)
    ensures Plus(x, y) == Plus(y, x)
  {
  }

  lemma Associates(x: Word, y: Word, z: Word)
    ensures Plus(Plus(x, y), z) == Plus(x, Plus(y, z))
  {
    calc { Plus(Plus(x, y), z); Plus(x + y, z); x + y + z; x + (y + z); Plus(x, y + z); }
  }

  lemma Reversed(x: Word, y: Word, z: Word, u: Word)
    ensures Sum4(x, y, z, u) == Sum4(u, z, y, x)
  {
    hide Plus;
    calc {
      Plus(Plus(Plus(x, y), z), u);
      { Commutes(Plus(Plus(x, y), z), u); Commutes(Plus(x, y), z); Commutes(x, y); }
      Plus(u, Plus(z, Plus(y, x)));
      { Associates(u, z, Plus(y, x)); Associates(Plus(u, z), y, x); }
      Plus(Plus(Plus(u, z), y), x);
    }
  }

  /** Chains of it compute the sums of the standard, whose terms come in another order in W_t. */
  lemma Chains(x: Word, y: Word, z: Word, u: Word, v: Word)
    ensures WrappingAdd(x, y) == Plus(x, y) == Plus(y, x)
    ensures WrappingAdd(WrappingAdd(WrappingAdd(x, y), z), u) == Sum4(u, z, y, x)
    ensures WrappingAdd(WrappingAdd(WrappingAdd(WrappingAdd(x, y), z), u), v) == Sum5(x, y, z, u, v)
  {
    hide WrappingAdd, Plus;
    AddIsPlus(x, y);
    AddIsPlus(Plus(x, y), z);
    AddIsPlus(Plus(Plus(x, y), z), u);
    AddIsPlus(Sum4(x, y, z, u), v);
    Commutes(x, y);
    Reversed(x, y, z, u);
  }

  lemma ScheduleStep(b: Chunk, t: nat)
    requires 16 <= t < 64
    ensures W(b, t) == Sum4(SmallSigma1(W(b, t - 2)), W(b, t - 7), SmallSigma0(W(b, t - 15)), W(b, t - 16))
  {
  }

  lemma FirstWords(b: Chunk, t: nat)
    requires t < 16
    ensures W(b, t) == ToWord(b[4 * t], b[4 * t + 1], b[4 * t + 2], b[4 * t + 3])
  {
  }

  /** Fill the schedule for one chunk, whatever an earlier chunk left in it. */
  method Schedule(chunk: Chunk, w: array<Word>)
    requires w.Length == 64
    modifies w
    ensures forall t :: 0 <= t < 64 ==> w[t] == W(chunk, t)
  {
    hide SmallSigma0, SmallSigma1, Mix7, Mix17, ToWord, FromBeBytes, W, Sum4, WrappingAdd;
    for i := 0 to 16
      invariant forall t :: 0 <= t < i ==> w[t] == W(chunk, t)
    {
      w[i] := FromBeBytes(chunk[4 * i], chunk[4 * i + 1], chunk[4 * i + 2], chunk[4 * i + 3]);
      BigEndian(0, chunk[4 * i], chunk[4 * i + 1], chunk[4 * i + 2], chunk[4 * i + 3]);
      FirstWords(chunk, i);
    }
    for i := 16 to 64
      invariant forall t :: 0 <= t < i ==> w[t] == W(chunk, t)
    {
      var s0 := Mix7(w[i - 15]);
      var s1 := Mix17(w[i - 2]);
      Rotations(w[i - 15]);
      Rotations(w[i - 2]);
      ScheduleStep(chunk, i);
      Chains(w[i - 16], s0, w[i - 7], s1, 0);
      w[i] := WrappingAdd(WrappingAdd(WrappingAdd(w[i - 16], s0), w[i - 7]), s1);
    }
  }

  /** The 64 rounds over eight rolling variables. */
  method RollingRounds(chunk: Chunk, w: array<Word>, init: Vars) returns (v: Vars)
    requires w.Length == 64 && forall t :: 0 <= t < 64 ==> w[t] == W(chunk, t)
    ensures v == Rounds(chunk, init, 64)
  {
    hide BigSigma0, BigSigma1, Mix2, Mix6, Ch, Maj, W, Plus, Sum5, WrappingAdd, KAt;
    var a, b, c, d, e, f, g, hh := init.a, init.b, init.c, init.d, init.e, init.f, init.g, init.h;
    for i := 0 to 64
      invariant Vars(a, b, c, d, e, f, g, hh) == Rounds(chunk, init, i)
    {
      ghost var before := Vars(a, b, c, d, e, f, g, hh);
      var s1 := Mix6(e);
      var ch := (e & f) ^ (!e & g);
      var temp1 := WrappingAdd(WrappingAdd(WrappingAdd(WrappingAdd(hh, s1), ch), KAt(i)), w[i]);
      var s0 := Mix2(a);
      var maj := (a & b) ^ (a & c) ^ (b & c);
      var temp2 := WrappingAdd(s0, maj);
      Rotations(a);
      Rotations(e);
      Selections(a, b, c, e, f, g);
      Chains(hh, s1, ch, KAt(i), w[i]);
      Chains(s0, maj, 0, 0, 0);
      Chains(d, temp1, 0, 0, 0);
      Chains(temp1, temp2, 0, 0, 0);
      assert temp1 == T1(before, KAt(i), W(chunk, i)) && temp2 == T2(before);
      hh := g;
      g := f;
      f := e;
      e := WrappingAdd(d, temp1);
      d := c;
      c := b;
      b := a;
      a := WrappingAdd(temp1, temp2);
      assert Vars(a, b, c, d, e, f, g, hh) == Round(before, KAt(i), W(chunk, i));
    }
    v := Vars(a, b, c, d, e, f, g, hh);
  }

  lemma Selections(a: Word, b: Word, c: Word, e: Word, f: Word, g: Word)
    ensures (e & f) ^ (!e & g) == Ch(e, f, g)
    ensures (a & b) ^ (a & c) ^ (b & c) == Maj(a, b, c)
  {
  }

  /** Adding the working variables to the hash value, word by word. */
  lemma AddIs(h: Vars, v: Vars)
    ensures Add(v, h) ==
      Vars(WrappingAdd(h.a, v.a), WrappingAdd(h.b, v.b), WrappingAdd(h.c, v.c), WrappingAdd(h.d, v.d),
           WrappingAdd(h.e, v.e), WrappingAdd(h.f, v.f), WrappingAdd(h.g, v.g), WrappingAdd(h.h, v.h))
  {
    hide Plus, WrappingAdd;
    Chains(h.a, v.a, 0, 0, 0); Chains(h.b, v.b, 0, 0, 0); Chains(h.c, v.c, 0, 0, 0); Chains(h.d, v.d, 0, 0, 0);
    Chains(h.e, v.e, 0, 0, 0); Chains(h.f, v.f, 0, 0, 0); Chains(h.g, v.g, 0, 0, 0); Chains(h.h, v.h, 0, 0, 0);
  }

  /** The intermediate hash value, as the array holds it. */
  ghost function Held(h: array<Word>): Vars
    requires h.Length == 8
    reads h
  {
    Vars(h[0], h[1], h[2], h[3], h[4], h[5], h[6], h[7])
  }

  /** Fold one chunk into the hash value, in place. */
  method Update(chunk: Chunk, h: array<Word>, w: array<Word>)
    requires h.Length == 8 && w.Length == 64 && h != w
    modifies h, w
    ensures Held(h) == Compress(old(Held(h)), chunk)
  {
    hide Plus, WrappingAdd, Rounds, W, Add;
    Schedule(chunk, w);
    var init := Vars(h[0], h[1], h[2], h[3], h[4], h[5], h[6], h[7]);
    var v := RollingRounds(chunk, w, init);
    h[0] := WrappingAdd(h[0], v.a);
    h[1] := WrappingAdd(h[1], v.b);
    h[2] := WrappingAdd(h[2], v.c);
    h[3] := WrappingAdd(h[3], v.d);
    h[4] := WrappingAdd(h[4], v.e);
    h[5] := WrappingAdd(h[5], v.f);
    h[6] := WrappingAdd(h[6], v.g);
    h[7] := WrappingAdd(h[7], v.h);
    AddIs(init, v);
  }

  method PadMessage(data: Bytes) returns (msg: Bytes)
    ensures msg == Pad(data)
  {
    hide LengthField;
    var bitLen := (8 * |data|) % USIZE_LIMIT;
    msg := data + [0x80];
    ghost var k := 0;
    while |msg| % 64 != 56
      invariant k <= ZeroBytes(|data|) && msg == data + [0x80] + seq(k, _ => 0)
      decreases ZeroBytes(|data|) - k
    {
      msg := msg + [0];
      k := k + 1;
    }
    ZeroBytesLeast(|data|, k);
    msg := msg + LengthField(|data|);
  }

  /** The hash value as 32 bytes. */
  method HashBytes(h: array<Word>) returns (bytes: Bytes)
    requires h.Length == 8
    ensures bytes == Output(Held(h))
  {
    hide OfWord, ToBeBytes;
    bytes := [];
    for j := 0 to 8
      invariant bytes == Flatten(h[..j])
    {
      assert h[..j + 1][..j] == h[..j];
      BigEndian(h[j], 0, 0, 0, 0);
      bytes := bytes + ToBeBytes(h[j]);
    }
    assert h[..8] == [h[0], h[1], h[2], h[3], h[4], h[5], h[6], h[7]];
  }

  /** `sha256`. */
  method Sha256(data: Bytes) returns (out: Digest)
    ensures out == Hash(data)
  {
    hide Pad, Compress, Output;
    var h := new Word[8][0x6a09e667, 0xbb67ae85, 0x3c6ef372, 0xa54ff53a, 0x510e527f, 0x9b05688c, 0x1f83d9ab, 0x5be0cd19];
    var msg := PadMessage(data);
    var w := new Word[64](_ => 0);
    var i := 0;
    assert Held(h) == H0;
    while 64 * i < |msg|
      invariant 0 <= 64 * i <= |msg| && |msg| % 64 == 0
      invariant Held(h) == Chain(msg, i)
    {
      Update(ChunkAt(msg, i), h, w);
      i := i + 1;
    }
    out := HashBytes(h);
  }
}
