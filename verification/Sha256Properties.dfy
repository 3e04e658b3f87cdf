/** What SHA-256 keeps of its input: the rounds lose nothing, and a collision of the hash is a
    collision of the compression of one block. */
module Sha256Properties {
  import opened Bytes
  import opened Fips180

  // ---------------------------------------------------------------------------------------
  // The selections
  // ---------------------------------------------------------------------------------------

  /** Bit by bit, x chooses y where it is set. */
  lemma ChoosesFirst(x: Word, y: Word, z: Word)
    ensures Ch(x, y, z) & x == y & x
  {
  }

  /** And z where it is not. */
  lemma ChoosesSecond(x: Word, y: Word, z: Word)
    ensures Ch(x, y, z) & !x == z & !x
  {
  }

  /** A bit is in the majority when it is set in two of the three. */
  lemma MajorityOfThree(x: Word, y: Word, z: Word)
    ensures Maj(x, y, z) == (x & y) | (x & z) | (y & z)
  {
  }

  // ---------------------------------------------------------------------------------------
  // Nothing is lost before the last addition
  // ---------------------------------------------------------------------------------------

  lemma Cancels(x: Word, y: Word, z: Word)
    ensures Plus(x, y) == Plus(z, y) ==> x == z
    ensures Plus(y, x) == Plus(y, z) ==> x == z
  {
  }

  lemma T1Separates(v: Vars, k: Word, w: Word, x: Word)
    ensures T1(v, k, w) == T1(v, k, x) ==> w == x
  {
    hide Plus, BigSigma1, Ch;
    Cancels(w, Sum4(v.h, BigSigma1(v.e), Ch(v.e, v.f, v.g), k), x);
  }

  lemma T1Cancels(u: Vars, v: Vars, k: Word, w: Word)
    requires T1(u, k, w) == T1(v, k, w) && u.e == v.e && u.f == v.f && u.g == v.g
    ensures u.h == v.h
  {
    hide Plus, BigSigma1, Ch;
    var s, c := BigSigma1(v.e), Ch(v.e, v.f, v.g);
    Cancels(Sum4(u.h, s, c, k), w, Sum4(v.h, s, c, k));
    Cancels(Plus(Plus(u.h, s), c), k, Plus(Plus(v.h, s), c));
    Cancels(Plus(u.h, s), c, Plus(v.h, s));
    Cancels(u.h, s, v.h);
  }

  /** A round tells any two schedule words apart, and any two values of the variables. */
  lemma RoundSeparates(u: Vars, v: Vars, k: Word, w: Word, x: Word)
    ensures Round(v, k, w) == Round(v, k, x) <==> w == x
    ensures Round(u, k, w) == Round(v, k, w) <==> u == v
  {
    hide Plus, T1, T2;
    if Round(v, k, w) == Round(v, k, x) {
      Cancels(T1(v, k, w), T2(v), T1(v, k, x));
      T1Separates(v, k, w, x);
    }
    if Round(u, k, w) == Round(v, k, w) {
      T2Reads(u, v);
      Cancels(T1(u, k, w), T2(v), T1(v, k, w));
      Cancels(u.d, T1(v, k, w), v.d);
      T1Cancels(u, v, k, w);
    }
  }

  lemma T2Reads(u: Vars, v: Vars)
    requires u.a == v.a && u.b == v.b && u.c == v.c
    ensures T2(u) == T2(v)
  {
  }

  /** For one chunk the rounds are a permutation of the hash values. */
  lemma {:induction false} RoundsSeparate(b: Chunk, u: Vars, v: Vars, t: nat)
    requires t <= 64
    ensures Rounds(b, u, t) == Rounds(b, v, t) <==> u == v
  {
    hide Round, W, KAt;
    if t > 0 {
      RoundsSeparate(b, u, v, t - 1);
      RoundSeparates(Rounds(b, u, t - 1), Rounds(b, v, t - 1), KAt(t - 1), W(b, t - 1), 0);
    }
  }

  /** And from one hash value, sixteen rounds already tell any two chunks apart. */
  lemma ChunksSeparate(b: Chunk, c: Chunk, v: Vars)
    requires forall t :: 0 <= t <= 16 ==> Rounds(b, v, t) == Rounds(c, v, t)
    ensures b == c
  {
    hide Rounds;
    forall i | 0 <= i < 64 ensures b[i] == c[i] {
      var t := i / 4;
      assert Rounds(b, v, t) == Rounds(c, v, t) && Rounds(b, v, t + 1) == Rounds(c, v, t + 1);
      WordsSeparate(b, c, v, t);
      assert b[4 * t..4 * t + 4][i - 4 * t] == b[i] && c[4 * t..4 * t + 4][i - 4 * t] == c[i];
    }
  }

  lemma WordsSeparate(b: Chunk, c: Chunk, v: Vars, t: nat)
    requires t < 16 && Rounds(b, v, t) == Rounds(c, v, t) && Rounds(b, v, t + 1) == Rounds(c, v, t + 1)
    ensures b[4 * t..4 * t + 4] == c[4 * t..4 * t + 4]
  {
    hide Round, KAt, ToWord, OfWord;
    RoundSeparates(v, Rounds(b, v, t), KAt(t), W(b, t), W(c, t));
    WordRoundTrip(0, b[4 * t], b[4 * t + 1], b[4 * t + 2], b[4 * t + 3]);
    WordRoundTrip(0, c[4 * t], c[4 * t + 1], c[4 * t + 2], c[4 * t + 3]);
    assert b[4 * t..4 * t + 4] == OfWord(M(b, t)) && c[4 * t..4 * t + 4] == OfWord(M(c, t));
  }

  // ---------------------------------------------------------------------------------------
  // From the whole message to one block
  // ---------------------------------------------------------------------------------------

  lemma WordOfBytes(x: Word, y: Word)
    ensures OfWord(x) == OfWord(y) ==> x == y
  {
    hide OfWord, ToWord;
    WordRoundTrip(x, 0, 0, 0, 0);
    WordRoundTrip(y, 0, 0, 0, 0);
  }

  lemma {:induction false} FlattenInjective(v: seq<Word>, w: seq<Word>)
    requires |v| == |w| && Flatten(v) == Flatten(w)
    ensures v == w
  {
    hide OfWord;
    if v != [] {
      var n := |v| - 1;
      var s, t := Flatten(v), Flatten(w);
      assert Flatten(v[..n]) == s[..4 * n] == t[..4 * n] == Flatten(w[..n]);
      assert OfWord(v[n]) == s[4 * n..] == t[4 * n..] == OfWord(w[n]);
      FlattenInjective(v[..n], w[..n]);
      WordOfBytes(v[n], w[n]);
      assert v == v[..n] + [v[n]] && w == w[..n] + [w[n]];
    }
  }

  lemma OutputInjective(x: Vars, y: Vars)
    requires Output(x) == Output(y)
    ensures x == y
  {
    hide Flatten;
    var v, w := [x.a, x.b, x.c, x.d, x.e, x.f, x.g, x.h], [y.a, y.b, y.c, y.d, y.e, y.f, y.g, y.h];
    FlattenInjective(v, w);
    assert v[0] == w[0] && v[1] == w[1] && v[2] == w[2] && v[3] == w[3];
    assert v[4] == w[4] && v[5] == w[5] && v[6] == w[6] && v[7] == w[7];
  }

  /** Two different inputs of the compression, one block of p and one of q, with the same result. */
  predicate BlocksCollide(p: Bytes, i: nat, q: Bytes, j: nat)
    requires 64 * i + 64 <= |p| && 64 * j + 64 <= |q|
  {
    && (Chain(p, i), ChunkAt(p, i)) != (Chain(q, j), ChunkAt(q, j))
    && Compress(Chain(p, i), ChunkAt(p, i)) == Compress(Chain(q, j), ChunkAt(q, j))
  }

  /** Equal chains over as many blocks come from equal blocks, unless two of them collide. */
  lemma {:induction false} LastDifference(p: Bytes, q: Bytes, n: nat) returns (i: nat)
    requires 64 * n <= |p| && 64 * n <= |q| && Chain(p, n) == Chain(q, n) && p[..64 * n] != q[..64 * n]
    ensures i < n && BlocksCollide(p, i, q, i)
  {
    hide Compress;
    if n == 0 {
      assert false;
    } else if (Chain(p, n - 1), ChunkAt(p, n - 1)) != (Chain(q, n - 1), ChunkAt(q, n - 1)) {
      i := n - 1;
    } else {
      assert p[..64 * n] == p[..64 * (n - 1)] + ChunkAt(p, n - 1);
      assert q[..64 * n] == q[..64 * (n - 1)] + ChunkAt(q, n - 1);
      i := LastDifference(p, q, n - 1);
    }
  }

  ghost predicate SomeBlocksCollide(p: Bytes, q: Bytes) {
    exists i: nat, j: nat :: 64 * i + 64 <= |p| && 64 * j + 64 <= |q| && BlocksCollide(p, i, q, j)
  }

  /** The construction adds no collision of its own: two messages have one hash only if they are
      equal or have, at a block each, a collision of the compression function. */
  lemma CollisionIsInABlock(d: Bytes, e: Bytes)
    requires 8 * |d| < USIZE_LIMIT && 8 * |e| < USIZE_LIMIT
    ensures Hash(d) == Hash(e) ==> d == e || SomeBlocksCollide(Pad(d), Pad(e))
  {
    hide Pad, Compress, Output, BlocksCollide;
    if d != e && Hash(d) == Hash(e) {
      var p, q := Pad(d), Pad(e);
      var m, n := |p| / 64, |q| / 64;
      WholeBlocks(d);
      WholeBlocks(e);
      OutputInjective(Chain(p, m), Chain(q, n));
      if |p| == |q| {
        PadInjective(d, e);
        assert p[..64 * m] == p && q[..64 * n] == q;
        var i := LastDifference(p, q, m);
      } else {
        LastBlocksDiffer(d, e);
        LastBlocks(p, m - 1, q, n - 1);
      }
    }
  }

  lemma LastBlocks(p: Bytes, i: nat, q: Bytes, j: nat)
    requires 64 * i + 64 <= |p| && 64 * j + 64 <= |q| && ChunkAt(p, i) != ChunkAt(q, j)
    ensures Chain(p, i + 1) == Chain(q, j + 1) ==> BlocksCollide(p, i, q, j)
  {
    hide Compress;
  }

  lemma WholeBlocks(d: Bytes)
    ensures |Pad(d)| % 64 == 0 && |Pad(d)| >= 64
  {
    hide Pad, ZeroBytes;
    assert (|d| + 1 + ZeroBytes(|d|)) % 64 == 56;
  }

  lemma LastBlocksDiffer(d: Bytes, e: Bytes)
    requires 8 * |d| < USIZE_LIMIT && 8 * |e| < USIZE_LIMIT
    ensures |Pad(d)| >= 64 && |Pad(e)| >= 64
    ensures |d| != |e| ==> Pad(d)[|Pad(d)| - 64..] != Pad(e)[|Pad(e)| - 64..]
  {
    hide LengthField;
    WholeBlocks(d);
    WholeBlocks(e);
    var p, q := Pad(d), Pad(e);
    if p[|p| - 64..] == q[|q| - 64..] {
      assert LengthField(|d|) == p[|p| - 64..][56..] == q[|q| - 64..][56..] == LengthField(|e|);
      LengthFieldInjective(|d|, |e|);
    }
  }
}
