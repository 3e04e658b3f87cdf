/** base64url without padding: the hand-written codec of src/paginate.rs against the bit-stream
    definition of sections 4, 5 and 3.5 of RFC 4648. */
module Base64Url {
  import opened Wrappers
  import opened Bytes

  // ---------------------------------------------------------------------------------------
  // The alphabet (Table 2 of RFC 4648)
  // ---------------------------------------------------------------------------------------

  type Sextet = v: bv32 | v < 64 witness 0

  // "A-M", "N-Z", "a-m", "n-z", "0-9" and "-_", as bytes
  const UPPER: Bytes :=
    [65, 66, 67, 68, 69, 70, 71, 72, 73, 74, 75, 76, 77] + [78, 79, 80, 81, 82, 83, 84, 85, 86, 87, 88, 89, 90]
  const LOWER: Bytes :=
    [97, 98, 99, 100, 101, 102, 103, 104, 105, 106, 107, 108, 109]
    + [110, 111, 112, 113, 114, 115, 116, 117, 118, 119, 120, 121, 122]
  const DIGITS: Bytes := [48, 49, 50, 51, 52, 53, 54, 55, 56, 57]
  const B64URL: Bytes := UPPER + LOWER + DIGITS + [45, 95]

  function Symbol(v: Sextet): u8 {
    B64URL[v as int]
  }

  /** The inverse lookup, by ranges. */
  function Val(c: u8): Option<Sextet> {
    if 65 <= c <= 90 then Some((c - 65) as bv32)
    else if 97 <= c <= 122 then Some((c - 97 + 26) as bv32)
    else if 48 <= c <= 57 then Some((c - 48 + 52) as bv32)
    else if c == 45 then Some(62)
    else if c == 95 then Some(63)
    else None
  }

  lemma UpperAt(i: nat)
    requires i < 26
    ensures UPPER[i] as nat == i + 65
  {
    if i < 13 {} else {}
  }

  lemma LowerAt(i: nat)
    requires i < 26
    ensures LOWER[i] as nat == i + 97
  {
    if i < 13 {} else {}
  }

  lemma DigitAt(i: nat)
    requires i < 10
    ensures DIGITS[i] as nat == i + 48
  {
  }

  lemma ValOfSymbol(v: Sextet)
    ensures Val(Symbol(v)) == Some(v)
  {
    var i := v as int;
    if i < 26 { UpperAt(i); }
    else if i < 52 { LowerAt(i - 26); }
    else if i < 62 { DigitAt(i - 52); }
  }

  lemma SymbolOfVal(c: u8)
    requires Val(c).Some?
    ensures Symbol(Val(c).value) == c
  {
    var i := Val(c).value as int;
    if i < 26 { UpperAt(i); }
    else if i < 52 { LowerAt(i - 26); }
    else if i < 62 { DigitAt(i - 52); }
  }

  // ---------------------------------------------------------------------------------------
  // Bit streams
  // ---------------------------------------------------------------------------------------

  type Bits = seq<bool>

  // The low 2, 4, 6 and 8 bits of a word, most significant first.
  function Low2(x: bv32): Bits { [x & 2 != 0, x & 1 != 0] }
  function Low4(x: bv32): Bits { [x & 8 != 0, x & 4 != 0, x & 2 != 0, x & 1 != 0] }
  function Low6(x: bv32): Bits { [x & 32 != 0, x & 16 != 0, x & 8 != 0, x & 4 != 0, x & 2 != 0, x & 1 != 0] }
  function Low8(x: bv32): Bits {
    [x & 128 != 0, x & 64 != 0, x & 32 != 0, x & 16 != 0, x & 8 != 0, x & 4 != 0, x & 2 != 0, x & 1 != 0]
  }

  /** The low `n` bits of the decoder's accumulator, for the only values `nbits` takes. */
  function LowBits(x: bv32, n: nat): (bits: Bits)
    requires n in {0, 2, 4, 6}
    ensures |bits| == n
  {
    if n == 0 then [] else if n == 2 then Low2(x) else if n == 4 then Low4(x) else Low6(x)
  }

  function ByteBits(d: Bytes): (bits: Bits)
    ensures |bits| == 8 * |d|
  {
    if d == [] then [] else Low8(d[0] as bv32) + ByteBits(d[1..])
  }

  function SextetBits(vs: seq<Sextet>): (bits: Bits)
    ensures |bits| == 6 * |vs|
  {
    if vs == [] then [] else Low6(vs[0]) + SextetBits(vs[1..])
  }

  function Zeros(k: nat): (bits: Bits)
    ensures |bits| == k
  {
    seq(k, _ => false)
  }

  function BitValue(b: bool, weight: bv32): bv32 {
    if b then weight else 0
  }

  function PackSextet(b: Bits): Sextet
    requires |b| == 6
  {
    BitValue(b[0], 32) | BitValue(b[1], 16) | BitValue(b[2], 8)
    | BitValue(b[3], 4) | BitValue(b[4], 2) | BitValue(b[5], 1)
  }

  function PackByte(b: Bits): u8
    requires |b| == 8
  {
    (BitValue(b[0], 128) | BitValue(b[1], 64) | BitValue(b[2], 32) | BitValue(b[3], 16)
     | BitValue(b[4], 8) | BitValue(b[5], 4) | BitValue(b[6], 2) | BitValue(b[7], 1)) as u8
  }

  /** Cut a bit stream into 6-bit groups, zero bits added on the right of the last one. */
  function Sextets(bits: Bits): seq<Sextet> {
    if |bits| == 0 then []
    else if |bits| < 6 then [PackSextet(bits + Zeros(6 - |bits|))]
    else [PackSextet(bits[..6])] + Sextets(bits[6..])
  }

  /** Cut a bit stream into the whole bytes it holds. */
  function WholeBytes(bits: Bits): (d: Bytes)
    ensures |d| == |bits| / 8
  {
    if |bits| < 8 then [] else [PackByte(bits[..8])] + WholeBytes(bits[8..])
  }

  // A field can be read in two parts, cut at any even position.
  lemma Split26(x: bv32)
    ensures Low8(x) == Low2(x >> 6) + Low6(x)
  {
  }

  lemma Split44(x: bv32)
    ensures Low8(x) == Low4(x >> 4) + Low4(x)
  {
  }

  lemma Split62(x: bv32)
    ensures Low8(x) == Low6(x >> 2) + Low2(x)
  {
  }

  lemma Split24(x: bv32)
    ensures Low6(x) == Low2(x >> 4) + Low4(x)
  {
  }

  lemma Split42(x: bv32)
    ensures Low6(x) == Low4(x >> 2) + Low2(x)
  {
  }

  lemma PackOfLow6(v: Sextet)
    ensures PackSextet(Low6(v)) == v
  {
  }

  lemma Low6OfPack(b: Bits)
    requires |b| == 6
    ensures Low6(PackSextet(b)) == b
  {
  }

  lemma PackOfLow8(x: u8)
    ensures PackByte(Low8(x as bv32)) == x
  {
  }

  lemma Low8OfPack(b: Bits)
    requires |b| == 8
    ensures Low8(PackByte(b) as bv32) == b
  {
  }

  lemma {:induction false} SextetsOfBits(vs: seq<Sextet>)
    ensures Sextets(SextetBits(vs)) == vs
  {
    hide Low6, PackSextet;
    if vs != [] {
      var bits := SextetBits(vs);
      assert bits[..6] == Low6(vs[0]) && bits[6..] == SextetBits(vs[1..]);
      PackOfLow6(vs[0]);
      SextetsOfBits(vs[1..]);
    }
  }

  /** Zero padding that completes the last group is what grouping adds by itself. */
  lemma {:induction false} PaddingIsImplicit(bits: Bits, k: nat, n: nat)
    requires k < 6 && |bits| + k == 6 * n
    ensures Sextets(bits + Zeros(k)) == Sextets(bits)
  {
    if |bits| == 0 {
    } else if |bits| < 6 {
      assert (bits + Zeros(k))[..6] == bits + Zeros(k);
      assert (bits + Zeros(k))[6..] == [];
    } else {
      assert (bits + Zeros(k))[..6] == bits[..6];
      assert (bits + Zeros(k))[6..] == bits[6..] + Zeros(k);
      PaddingIsImplicit(bits[6..], k, n - 1);
    }
  }

  /** Grouping loses nothing: reading the groups back gives the stream and its zero padding. */
  lemma {:induction false} BitsOfSextets(bits: Bits) returns (k: nat)
    ensures k < 6 && SextetBits(Sextets(bits)) == bits + Zeros(k)
  {
    hide Low6, PackSextet;
    if |bits| == 0 {
      k := 0;
    } else if |bits| < 6 {
      k := 6 - |bits|;
      Low6OfPack(bits + Zeros(k));
      assert SextetBits(Sextets(bits)) == Low6(PackSextet(bits + Zeros(k))) + [];
    } else {
      k := BitsOfSextets(bits[6..]);
      Low6OfPack(bits[..6]);
      assert Sextets(bits)[1..] == Sextets(bits[6..]);
      assert bits + Zeros(k) == bits[..6] + (bits[6..] + Zeros(k));
    }
  }

  lemma {:induction false} WholeBytesOfBits(d: Bytes, rest: Bits)
    requires |rest| < 8
    ensures WholeBytes(ByteBits(d) + rest) == d
  {
    hide Low8, PackByte;
    if d != [] {
      var bits := ByteBits(d) + rest;
      assert bits[..8] == Low8(d[0] as bv32) && bits[8..] == ByteBits(d[1..]) + rest;
      PackOfLow8(d[0]);
      WholeBytesOfBits(d[1..], rest);
    }
  }

  lemma {:induction false} BitsOfWholeBytes(bits: Bits, n: nat)
    requires 8 * n <= |bits| < 8 * n + 8
    ensures ByteBits(WholeBytes(bits)) == bits[..8 * n]
  {
    hide Low8, PackByte;
    if n > 0 {
      var rest := bits[8..];
      Low8OfPack(bits[..8]);
      BitsOfWholeBytes(rest, n - 1);
      assert WholeBytes(bits) == [PackByte(bits[..8])] + WholeBytes(rest);
      assert bits[..8 * n] == bits[..8] + rest[..8 * (n - 1)];
    }
  }

  // ---------------------------------------------------------------------------------------
  // The reference codec
  // ---------------------------------------------------------------------------------------

  function Spell(vs: seq<Sextet>): (s: Bytes)
    ensures |s| == |vs|
  {
    seq(|vs|, i requires 0 <= i < |vs| => Symbol(vs[i]))
  }

  predicate InAlphabet(s: Bytes) {
    forall i :: 0 <= i < |s| ==> Val(s[i]).Some?
  }

  function Values(s: Bytes): (vs: seq<Sextet>)
    requires InAlphabet(s)
    ensures |vs| == |s|
  {
    seq(|s|, i requires 0 <= i < |s| => Val(s[i]).value)
  }

  /** The byte string written in 6-bit groups. */
  function Encode(d: Bytes): Bytes {
    Spell(Sextets(ByteBits(d)))
  }

  /** The bits after the last whole byte. */
  function Leftover(bits: Bits): Bits {
    bits[8 * (|bits| / 8)..]
  }

  /** The strict reading: alphabet characters only, and after the last whole byte nothing but
      zero bits, too few of them to be a group of their own. */
  function Decode(s: Bytes): Option<Bytes> {
    if !InAlphabet(s) then None
    else
      var bits := SextetBits(Values(s));
      if |Leftover(bits)| < 6 && Leftover(bits) == Zeros(|Leftover(bits)|) then Some(WholeBytes(bits)) else None
  }

  lemma ValuesOfSpell(vs: seq<Sextet>)
    ensures InAlphabet(Spell(vs)) && Values(Spell(vs)) == vs
  {
    forall i | 0 <= i < |vs| ensures Val(Spell(vs)[i]) == Some(vs[i]) {
      ValOfSymbol(vs[i]);
    }
  }

  lemma SpellOfValues(s: Bytes)
    requires InAlphabet(s)
    ensures Spell(Values(s)) == s
  {
    forall i | 0 <= i < |s| ensures Spell(Values(s))[i] == s[i] {
      SymbolOfVal(s[i]);
    }
  }

  lemma DecodeOfEncode(d: Bytes)
    ensures Decode(Encode(d)) == Some(d)
  {
    var bits := ByteBits(d);
    var k := BitsOfSextets(bits);
    ValuesOfSpell(Sextets(bits));
    WholeBytesOfBits(d, Zeros(k));
    assert (|bits| + k) / 8 == |d|;
    assert Leftover(bits + Zeros(k)) == Zeros(k);
  }

  lemma EncodeOfDecode(s: Bytes)
    requires Decode(s).Some?
    ensures Encode(Decode(s).value) == s
  {
    var bits := SextetBits(Values(s));
    var whole, rest := bits[..8 * (|bits| / 8)], Leftover(bits);
    BitsOfWholeBytes(bits, |bits| / 8);
    assert bits == whole + Zeros(|rest|);
    PaddingIsImplicit(whole, |rest|, |s|);
    SextetsOfBits(Values(s));
    SpellOfValues(s);
  }

  /** Decoding is the partial inverse of encoding, in both directions and for every string:
      the accepted strings are exactly the canonical encodings, and each has one spelling. */
  lemma DecodeIffEncode(s: Bytes, d: Bytes)
    ensures Decode(s) == Some(d) <==> s == Encode(d)
  {
    DecodeOfEncode(d);
    if Decode(s).Some? {
      EncodeOfDecode(s);
    }
  }

  // ---------------------------------------------------------------------------------------
  // The encoder: three bytes at a time through a 24-bit word
  // ---------------------------------------------------------------------------------------

  function Word24(b0: u8, b1: u8, b2: u8): bv32 {
    ((b0 as bv32) << 16) | ((b1 as bv32) << 8) | (b2 as bv32)
  }

  function Digit(n: bv32, shift: nat): Sextet
    requires shift in {0, 6, 12, 18}
  {
    (n >> shift) & 63
  }

  function Quad(n: bv32): seq<Sextet> {
    [Digit(n, 18), Digit(n, 12), Digit(n, 6), Digit(n, 0)]
  }

  // The fields of the four digits of a word, byte by byte.
  lemma FirstDigit(b0: u8, b1: u8, b2: u8)
    ensures Low6(Digit(Word24(b0, b1, b2), 18)) == Low6((b0 as bv32) >> 2)
  {
  }

  lemma SecondDigit(b0: u8, b1: u8, b2: u8)
    ensures var v := Digit(Word24(b0, b1, b2), 12);
      Low2(v >> 4) == Low2(b0 as bv32) && Low4(v) == Low4((b1 as bv32) >> 4)
  {
  }

  lemma ThirdDigit(b0: u8, b1: u8, b2: u8)
    ensures var v := Digit(Word24(b0, b1, b2), 6);
      Low4(v >> 2) == Low4(b1 as bv32) && Low2(v) == Low2((b2 as bv32) >> 6)
  {
  }

  lemma FourthDigit(b0: u8, b1: u8, b2: u8)
    ensures Low6(Digit(Word24(b0, b1, b2), 0)) == Low6(b2 as bv32)
  {
  }

  lemma Assoc(a: Bits, b: Bits, c: Bits)
    ensures (a + b) + c == a + (b + c)
  {
  }

  lemma Regroup(a: Bits, b: Bits, c: Bits, d: Bits, e: Bits, f: Bits)
    ensures a + (b + c) + (d + e) + f == (a + b) + (c + d) + (e + f)
  {
  }

  lemma FieldBits(b0: bv32, b1: bv32, b2: bv32, v0: Sextet, v1: Sextet, v2: Sextet, v3: Sextet)
    requires Low6(v0) == Low6(b0 >> 2)
    requires Low2(v1 >> 4) == Low2(b0) && Low4(v1) == Low4(b1 >> 4)
    requires Low4(v2 >> 2) == Low4(b1) && Low2(v2) == Low2(b2 >> 6)
    requires Low6(v3) == Low6(b2)
    ensures SextetBits([v0, v1, v2, v3]) == Low8(b0) + Low8(b1) + Low8(b2)
  {
    hide Low2, Low4, Low6, Low8;
    Split62(b0);
    Split44(b1);
    Split26(b2);
    Split24(v1);
    Split42(v2);
    SextetBits4(v0, v1, v2, v3);
    Regroup(Low6(v0), Low2(b0), Low4(v1), Low4(b1), Low2(v2), Low6(v3));
  }

  lemma QuadBits(b0: u8, b1: u8, b2: u8)
    ensures SextetBits(Quad(Word24(b0, b1, b2))) == Low8(b0 as bv32) + Low8(b1 as bv32) + Low8(b2 as bv32)
  {
    hide Low2, Low4, Low6, Low8, Word24, Digit;
    var n := Word24(b0, b1, b2);
    FirstDigit(b0, b1, b2);
    SecondDigit(b0, b1, b2);
    ThirdDigit(b0, b1, b2);
    FourthDigit(b0, b1, b2);
    FieldBits(b0 as bv32, b1 as bv32, b2 as bv32, Digit(n, 18), Digit(n, 12), Digit(n, 6), Digit(n, 0));
  }

  lemma SextetBits4(v0: Sextet, v1: Sextet, v2: Sextet, v3: Sextet)
    ensures SextetBits([v0, v1, v2, v3]) == Low6(v0) + Low6(v1) + Low6(v2) + Low6(v3)
  {
    assert [v0, v1, v2, v3] == [v0, v1, v2] + [v3] && [v0, v1, v2] == [v0, v1] + [v2] && [v0, v1] == [v0] + [v1];
    BitsAppend([v0, v1, v2], v3);
    BitsAppend([v0, v1], v2);
    BitsAppend([v0], v1);
    assert SextetBits([v0]) == Low6(v0);
  }

  lemma {:induction false} SextetsAppend(vs: seq<Sextet>, bits: Bits)
    ensures Sextets(SextetBits(vs) + bits) == vs + Sextets(bits)
  {
    hide Low6, PackSextet;
    if vs == [] {
      assert SextetBits(vs) + bits == bits;
    } else {
      var all := SextetBits(vs) + bits;
      assert all[..6] == Low6(vs[0]);
      assert all[6..] == SextetBits(vs[1..]) + bits;
      PackOfLow6(vs[0]);
      SextetsAppend(vs[1..], bits);
      assert Sextets(all) == [vs[0]] + Sextets(all[6..]);
    }
  }

  lemma EncodeTriple(b0: u8, b1: u8, b2: u8, rest: Bytes)
    ensures Encode([b0, b1, b2] + rest) == Spell(Quad(Word24(b0, b1, b2))) + Encode(rest)
  {
    hide Low8, ByteBits, SextetBits, Sextets, Word24, Quad, Symbol;
    ByteBitsConcat([b0, b1, b2], rest);
    ByteBits3(b0, b1, b2);
    QuadBits(b0, b1, b2);
    SextetsAppend(Quad(Word24(b0, b1, b2)), ByteBits(rest));
  }

  /** A short last chunk is encoded as if followed by zero bytes, and the digits that hold
      nothing but those zeros are left off. */
  lemma EncodePrefix(d: Bytes, zeros: Bytes, q: seq<Sextet>, n: nat)
    requires n <= |q| && SextetBits(q) == ByteBits(d + zeros)
    requires forall i :: 0 <= i < |zeros| ==> zeros[i] == 0
    requires 8 * |d| <= 6 * n < 8 * |d| + 6
    ensures Encode(d) == Spell(q[..n])
  {
    hide Low8, ByteBits, SextetBits, Sextets, Symbol;
    var k := 6 * n - 8 * |d|;
    ByteBitsConcat(d, zeros);
    ZeroByteBits(zeros);
    SextetBitsConcat(q[..n], q[n..]);
    assert q == q[..n] + q[n..];
    assert SextetBits(q[..n]) == SextetBits(q)[..6 * n] == ByteBits(d) + Zeros(k);
    PaddingIsImplicit(ByteBits(d), k, n);
    SextetsOfBits(q[..n]);
  }

  lemma {:induction false} ZeroByteBits(d: Bytes)
    requires forall i :: 0 <= i < |d| ==> d[i] == 0
    ensures ByteBits(d) == Zeros(8 * |d|)
  {
    if d != [] {
      ZeroByteBits(d[1..]);
      assert Low8(0) == Zeros(8);
    }
  }

  lemma {:induction false} SextetBitsConcat(vs: seq<Sextet>, ws: seq<Sextet>)
    ensures SextetBits(vs + ws) == SextetBits(vs) + SextetBits(ws)
  {
    if vs == [] {
      assert vs + ws == ws;
    } else {
      assert (vs + ws)[1..] == vs[1..] + ws;
      SextetBitsConcat(vs[1..], ws);
    }
  }

  lemma EncodePair(b0: u8, b1: u8)
    ensures Encode([b0, b1]) == Spell(Quad(Word24(b0, b1, 0))[..3])
  {
    EncodePrefix([b0, b1], [0], Quad(Word24(b0, b1, 0)), 3) by {
      QuadBits(b0, b1, 0);
      ByteBits3(b0, b1, 0);
      assert [b0, b1] + [0] == [b0, b1, 0];
    }
  }

  lemma EncodeSingle(b0: u8)
    ensures Encode([b0]) == Spell(Quad(Word24(b0, 0, 0))[..2])
  {
    EncodePrefix([b0], [0, 0], Quad(Word24(b0, 0, 0)), 2) by {
      QuadBits(b0, 0, 0);
      ByteBits3(b0, 0, 0);
      assert [b0] + [0, 0] == [b0, 0, 0];
    }
  }

  /** The first test vectors of section 10 of RFC 4648: "f", "fo" and "foo". */
  lemma TestVectors()
    ensures Encode([102]) == [90, 103]
    ensures Encode([102, 111]) == [90, 109, 56]
    ensures Encode([102, 111, 111]) == [90, 109, 57, 118]
  {
    hide Encode, Symbol;
    TestWords();
    EncodeSingle(102);
    EncodePair(102, 111);
    var foo: Bytes := [102, 111, 111];
    EncodeTriple(102, 111, 111, []);
    EmptyEncoding();
    assert foo + [] == foo;
    assert Encode(foo) == Spell(Quad(Word24(102, 111, 111))) + [];
    assert Spell([25, 38, 61, 47]) == [90, 109, 57, 118];
  }

  lemma TestWords()
    ensures Quad(Word24(102, 0, 0))[..2] == [25, 32] && Quad(Word24(102, 111, 0))[..3] == [25, 38, 60]
    ensures Quad(Word24(102, 111, 111)) == [25, 38, 61, 47]
    ensures Symbol(25) == 90 && Symbol(32) == 103 && Symbol(38) == 109 && Symbol(60) == 56 && Symbol(61) == 57
    ensures Symbol(47) == 118
  {
    SymbolOfVal(90); SymbolOfVal(103); SymbolOfVal(109); SymbolOfVal(56); SymbolOfVal(57); SymbolOfVal(118);
  }

  lemma ByteBits3(b0: u8, b1: u8, b2: u8)
    ensures ByteBits([b0, b1, b2]) == Low8(b0 as bv32) + Low8(b1 as bv32) + Low8(b2 as bv32)
  {
    assert [b0, b1, b2] == [b0, b1] + [b2] && [b0, b1] == [b0] + [b1];
    ByteBitsAppend([b0, b1], b2);
    ByteBitsAppend([b0], b1);
    assert ByteBits([b0]) == Low8(b0 as bv32);
  }

  lemma {:induction false} ByteBitsConcat(d: Bytes, e: Bytes)
    ensures ByteBits(d + e) == ByteBits(d) + ByteBits(e)
  {
    if d == [] {
      assert d + e == e;
    } else {
      assert (d + e)[1..] == d[1..] + e;
      ByteBitsConcat(d[1..], e);
    }
  }

  /** What one round of the encoder pushes for a chunk of `len` bytes held in `n`. */
  function Pushed(n: bv32, len: nat): Bytes {
    if len > 2 then [Symbol(Digit(n, 18)), Symbol(Digit(n, 12)), Symbol(Digit(n, 6)), Symbol(Digit(n, 0))]
    else if len > 1 then [Symbol(Digit(n, 18)), Symbol(Digit(n, 12)), Symbol(Digit(n, 6))]
    else [Symbol(Digit(n, 18)), Symbol(Digit(n, 12))]
  }

  function At(chunk: Bytes, k: nat): u8 {
    if k < |chunk| then chunk[k] else 0
  }

  /** It is exactly the chunk's encoding, and what follows is encoded independently of it. */
  lemma EncodeChunk(chunk: Bytes, rest: Bytes)
    requires |chunk| == 3 || (1 <= |chunk| < 3 && rest == [])
    ensures Encode(chunk + rest) == Pushed(Word24(At(chunk, 0), At(chunk, 1), At(chunk, 2)), |chunk|) + Encode(rest)
  {
    var n := Word24(At(chunk, 0), At(chunk, 1), At(chunk, 2));
    assert Pushed(n, |chunk|) == Spell(Quad(n)[..|chunk| + 1]);
    if |chunk| == 3 {
      assert chunk == [chunk[0], chunk[1], chunk[2]] && Quad(n)[..4] == Quad(n);
      EncodeTriple(chunk[0], chunk[1], chunk[2], rest);
    } else {
      assert chunk + rest == chunk && Encode(rest) == [];
      if |chunk| == 2 {
        assert chunk == [chunk[0], chunk[1]];
        EncodePair(chunk[0], chunk[1]);
      } else {
        assert chunk == [chunk[0]];
        EncodeSingle(chunk[0]);
      }
    }
  }

  /** `b64url_encode`. */
  method EncodeBytes(data: Bytes) returns (out: Bytes)
    ensures out == Encode(data)
  {
    hide Encode, Symbol, Word24, Digit;
    out := [];
    var i := 0;
    while i < |data|
      invariant 0 <= i <= |data|
      invariant out + Encode(data[i..]) == Encode(data)
    {
      var chunk := data[i..if i + 3 <= |data| then i + 3 else |data|];
      var n := Word24(At(chunk, 0), At(chunk, 1), At(chunk, 2));
      ghost var before, rest := out, data[i + |chunk|..];
      out := out + [Symbol(Digit(n, 18))];
      out := out + [Symbol(Digit(n, 12))];
      if |chunk| > 1 {
        out := out + [Symbol(Digit(n, 6))];
      }
      if |chunk| > 2 {
        out := out + [Symbol(Digit(n, 0))];
      }
      assert out == before + Pushed(n, |chunk|);
      assert data[i..] == chunk + rest;
      EncodeChunk(chunk, rest);
      i := i + |chunk|;
    }
    assert data[i..] == [] && Encode([]) == [] by { EmptyEncoding(); }
  }

  lemma EmptyEncoding()
    ensures Encode([]) == []
  {
  }

  // ---------------------------------------------------------------------------------------
  // The decoder: a 32-bit accumulator that overflows
  // ---------------------------------------------------------------------------------------

  lemma BitsAppend(vs: seq<Sextet>, v: Sextet)
    ensures SextetBits(vs + [v]) == SextetBits(vs) + Low6(v)
  {
    SextetBitsConcat(vs, [v]);
  }

  lemma ByteBitsAppend(d: Bytes, b: u8)
    ensures ByteBits(d + [b]) == ByteBits(d) + Low8(b as bv32)
  {
    ByteBitsConcat(d, [b]);
  }

  lemma WindowWords(acc: bv32, v: Sextet)
    ensures var x := (acc << 6) | v;
      && Low2((x & 0xff) >> 6) == Low2(acc) && Low6(x & 0xff) == Low6(v)
      && Low4(((x >> 2) & 0xff) >> 4) == Low4(acc) && Low4((x >> 2) & 0xff) == Low4(v >> 2) && Low2(x) == Low2(v)
      && Low6(((x >> 4) & 0xff) >> 2) == Low6(acc) && Low2((x >> 4) & 0xff) == Low2(v >> 4) && Low4(x) == Low4(v)
  {
  }

  lemma Window0(acc: bv32, v: Sextet)
    ensures Low6((acc << 6) | v) == Low6(v)
  {
  }

  lemma Window2(acc: bv32, v: Sextet)
    ensures Low8(((acc << 6) | v) & 0xff) == Low2(acc) + Low6(v)
  {
    hide Low2, Low4, Low6, Low8;
    WindowWords(acc, v);
    Split26(((acc << 6) | v) & 0xff);
  }

  lemma Window4(acc: bv32, v: Sextet)
    ensures Low8((((acc << 6) | v) >> 2) & 0xff) + Low2((acc << 6) | v) == Low4(acc) + Low6(v)
  {
    hide Low2, Low4, Low6, Low8;
    WindowWords(acc, v);
    Split44((((acc << 6) | v) >> 2) & 0xff);
    Split42(v);
  }

  lemma Window6(acc: bv32, v: Sextet)
    ensures Low8((((acc << 6) | v) >> 4) & 0xff) + Low4((acc << 6) | v) == Low6(acc) + Low6(v)
  {
    hide Low2, Low4, Low6, Low8;
    WindowWords(acc, v);
    Split62((((acc << 6) | v) >> 4) & 0xff);
    Split24(v);
  }

  /** The byte that leaves the accumulator when `nbits` bits stay behind. */
  function Emitted(acc: bv32, nbits: nat): u8
    requires nbits in {0, 2, 4}
  {
    ((acc >> nbits) & 0xff) as u8
  }

  /** One character keeps the window exact, whatever the bits above it were: the byte emitted
      (if any) and the low bits kept are the old window followed by the six new bits. */
  lemma WindowStep(acc: bv32, nbits: nat, v: Sextet)
    requires nbits in {0, 2, 4, 6}
    ensures nbits == 0 ==> LowBits((acc << 6) | v, 6) == LowBits(acc, 0) + Low6(v)
    ensures nbits != 0 ==>
      Low8(Emitted((acc << 6) | v, nbits - 2) as bv32) + LowBits((acc << 6) | v, nbits - 2) == LowBits(acc, nbits) + Low6(v)
  {
    hide Low2, Low4, Low6, Low8;
    var x := (acc << 6) | v;
    if nbits == 0 {
      Window0(acc, v);
    } else if nbits == 2 {
      Window2(acc, v);
      assert x >> 0 == x;
    } else if nbits == 4 {
      Window4(acc, v);
    } else {
      Window6(acc, v);
    }
  }

  /** One round of the decoder: the bits it has taken in, all of them, grow by exactly six. */
  lemma DecodeRound(out: Bytes, acc: bv32, nbits: nat, v: Sextet)
    requires nbits in {0, 2, 4, 6}
    ensures nbits == 0 ==>
      ByteBits(out) + LowBits((acc << 6) | v, 6) == ByteBits(out) + LowBits(acc, 0) + Low6(v)
    ensures nbits != 0 ==>
      ByteBits(out + [Emitted((acc << 6) | v, nbits - 2)]) + LowBits((acc << 6) | v, nbits - 2)
        == ByteBits(out) + LowBits(acc, nbits) + Low6(v)
  {
    hide Low2, Low4, Low6, Low8, LowBits, Emitted, ByteBits;
    WindowStep(acc, nbits, v);
    if nbits == 0 {
      Assoc(ByteBits(out), LowBits(acc, 0), Low6(v));
    } else {
      var b := Emitted((acc << 6) | v, nbits - 2);
      ByteBitsAppend(out, b);
      Assoc(ByteBits(out), Low8(b as bv32), LowBits((acc << 6) | v, nbits - 2));
      Assoc(ByteBits(out), LowBits(acc, nbits), Low6(v));
    }
  }

  /** The final test of the decoder: any of the bits left over is set. */
  predicate BitsRemain(acc: bv32, nbits: nat)
    requires nbits in {0, 2, 4, 6}
  {
    nbits > 0 && acc & ((1 << nbits) - 1) != 0
  }

  lemma ZeroFields(x: bv32)
    ensures x & 3 == 0 <==> Low2(x) == Zeros(2)
    ensures x & 15 == 0 <==> Low4(x) == Zeros(4)
    ensures x & 63 == 0 <==> Low6(x) == Zeros(6)
  {
    assert x & 3 == 0 <==> !Low2(x)[0] && !Low2(x)[1];
    assert x & 15 == 0 <==> !Low4(x)[0] && !Low4(x)[1] && !Low4(x)[2] && !Low4(x)[3];
    assert x & 63 == 0 <==> !Low6(x)[0] && !Low6(x)[1] && !Low6(x)[2] && !Low6(x)[3] && !Low6(x)[4] && !Low6(x)[5];
  }

  lemma LeftoverMask(acc: bv32, nbits: nat)
    requires nbits in {0, 2, 4, 6}
    ensures BitsRemain(acc, nbits) <==> LowBits(acc, nbits) != Zeros(nbits)
  {
    ZeroFields(acc);
    assert (1 as bv32 << 2) - 1 == 3 && (1 as bv32 << 4) - 1 == 15 && (1 as bv32 << 6) - 1 == 63;
  }

  /** `b64url_decode`. */
  method DecodeBytes(s: Bytes) returns (r: Option<Bytes>)
    ensures r == Decode(s)
  {
    hide Low2, Low4, Low6, Low8, Val, LowBits, Emitted, BitsRemain, ByteBits, Decode;
    if |s| % 4 == 1 {
      LengthOneModFour(s);
      return None;
    }
    var out: Bytes := [];
    var acc: bv32, nbits: nat := 0, 0;
    var i := 0;
    EmptyStream();
    while i < |s|
      invariant 0 <= i <= |s| && nbits in {0, 2, 4, 6}
      invariant InAlphabet(s[..i])
      invariant ByteBits(out) + LowBits(acc, nbits) == SextetBits(Values(s[..i]))
    {
      var val := Val(s[i]);
      if val == None {
        NotInAlphabet(s, i);
        return None;
      }
      var v := val.value;
      DecodeRound(out, acc, nbits, v);
      ValuesAppend(s, i);
      BitsAppend(Values(s[..i]), v);
      acc := (acc << 6) | v;
      nbits := nbits + 6;
      if nbits >= 8 {
        nbits := nbits - 8;
        var b := Emitted(acc, nbits);
        out := out + [b];
      }
      i := i + 1;
    }
    assert s[..i] == s;
    ScanResult(s, out, acc, nbits);
    if BitsRemain(acc, nbits) {
      return None;
    }
    return Some(out);
  }

  lemma NotInAlphabet(s: Bytes, i: nat)
    requires i < |s| && Val(s[i]) == None
    ensures Decode(s) == None
  {
  }

  lemma EmptyStream()
    ensures ByteBits([]) + LowBits(0, 0) == SextetBits([])
  {
  }

  lemma ValuesAppend(s: Bytes, i: nat)
    requires i < |s| && InAlphabet(s[..i]) && Val(s[i]).Some?
    ensures InAlphabet(s[..i + 1]) && Values(s[..i + 1]) == Values(s[..i]) + [Val(s[i]).value]
  {
  }

  lemma LeftoverCount(chars: nat, bytes: nat, nbits: nat)
    requires nbits in {0, 2, 4, 6} && 6 * chars == 8 * bytes + nbits && chars % 4 != 1
    ensures nbits < 6
  {
  }

  /** When the scan ends, the final test alone separates the two outcomes. */
  lemma ScanResult(s: Bytes, out: Bytes, acc: bv32, nbits: nat)
    requires |s| % 4 != 1 && InAlphabet(s) && nbits in {0, 2, 4, 6}
    requires ByteBits(out) + LowBits(acc, nbits) == SextetBits(Values(s))
    ensures Decode(s) == if BitsRemain(acc, nbits) then None else Some(out)
  {
    hide Low2, Low4, Low6, Low8, Val, LowBits, BitsRemain;
    var bits := SextetBits(Values(s));
    LeftoverCount(|s|, |out|, nbits);
    assert |bits| / 8 == |out|;
    assert Leftover(bits) == LowBits(acc, nbits);
    WholeBytesOfBits(out, LowBits(acc, nbits));
    LeftoverMask(acc, nbits);
  }

  /** A length of 1 modulo 4 leaves a whole group over, so no such string is accepted. */
  lemma LengthOneModFour(s: Bytes)
    requires |s| % 4 == 1
    ensures Decode(s) == None
  {
    if InAlphabet(s) {
      assert |Leftover(SextetBits(Values(s)))| == 6;
    }
  }

  /** Without the length check there would be a second spelling: an accepted string of whole
      groups followed by "A" holds the same bytes and leaves only zero bits over. */
  lemma LengthCheckIsNeeded(s: Bytes)
    requires |s| % 4 == 0 && Decode(s).Some?
    ensures InAlphabet(s + [65])
    ensures var bits := SextetBits(Values(s + [65]));
      Leftover(bits) == Zeros(6) && Some(WholeBytes(bits)) == Decode(s)
  {
    hide Low2, Low4, Low6, Low8, Val;
    var t, whole, d := s + [65], SextetBits(Values(s)), Decode(s).value;
    assert t[..|s|] == s && t[..|t|] == t && Val(65) == Some(0) by { LetterA(); }
    ValuesAppend(t, |s|);
    BitsAppend(Values(s), 0);
    BitsOfWholeBytes(whole, |d|);
    assert whole == ByteBits(d) && Low6(0) == Zeros(6) by { LetterA(); }
    var bits := SextetBits(Values(t));
    assert bits == ByteBits(d) + Zeros(6);
    WholeBytesOfBits(d, Zeros(6));
    assert |bits| / 8 == |d|;
  }

  lemma SetLastBit(v: Sextet)
    ensures (v | 1) < 64 && Low6(v | 1) == Low6(v)[..5] + [true]
  {
  }

  /** The groups of d with the last bit set: the same bytes, and one set bit left over. */
  lemma OtherGroups(d: Bytes) returns (ws: seq<Sextet>, rest: Bits)
    requires |d| % 3 != 0
    ensures |ws| == |Sextets(ByteBits(d))| && |ws| % 4 != 1
    ensures SextetBits(ws) == ByteBits(d) + rest
    ensures |rest| in {2, 4} && rest[|rest| - 1]
  {
    hide Low6, Low8, ByteBits, Sextets, SextetBits;
    var vs := Sextets(ByteBits(d));
    var k := BitsOfSextets(ByteBits(d));
    var n := |vs| - 1;
    PartialLength(|vs|, |d|, k);
    var v := vs[n];
    SetLastBit(v);
    ws := vs[..n] + [v | 1];
    assert vs == vs[..n] + [v];
    BitsAppend(vs[..n], v);
    BitsAppend(vs[..n], v | 1);
    rest := Zeros(k - 1) + [true];
    assert SextetBits(ws) == SextetBits(vs)[..6 * n + 5] + [true] == ByteBits(d) + rest;
  }

  /** Without the leftover test there would be a second spelling too: whenever the last group is
      not full, setting its last bit gives another string of the same possible length, over the
      alphabet and with the same whole bytes, and only that test turns it down. */
  lemma LeftoverCheckIsNeeded(d: Bytes) returns (t: Bytes)
    requires |d| % 3 != 0
    ensures t != Encode(d) && |t| == |Encode(d)| && |t| % 4 != 1 && InAlphabet(t)
    ensures WholeBytes(SextetBits(Values(t))) == d && |Leftover(SextetBits(Values(t)))| < 6
    ensures Decode(t) == None
  {
    hide Val, WholeBytes, Sextets, SextetBits, ByteBits;
    var ws, rest := OtherGroups(d);
    t := Spell(ws);
    ValuesOfSpell(ws);
    WholeBytesOfBits(d, rest);
    assert |SextetBits(ws)| / 8 == |d| && Leftover(SextetBits(ws)) == rest;
    DecodeOfEncode(d);
  }

  lemma PartialLength(chars: nat, bytes: nat, k: nat)
    requires 6 * chars == 8 * bytes + k && k < 6 && bytes % 3 != 0
    ensures chars >= 1 && chars % 4 != 1 && k in {2, 4}
  {
  }

  lemma LetterA()
    ensures Val(65) == Some(0) && Low6(0) == Zeros(6)
  {
  }
}
