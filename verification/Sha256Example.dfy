/** A known answer: the one-block example of FIPS 180-4 (tests/audit_test.rs). The schedule and the
    working variables after every round are written down and checked. */
module Sha256Example {
  import opened Bytes
  import opened Fips180

  const ABC: Bytes := [97, 98, 99]

  type Row = s: seq<Word> | |s| == 8 witness seq(8, _ => 0)

  // The schedule, eight words at a time
  const W0: Row := [0x61626380, 0x00000000, 0x00000000, 0x00000000, 0x00000000, 0x00000000, 0x00000000, 0x00000000]
  const W1: Row := [0x00000000, 0x00000000, 0x00000000, 0x00000000, 0x00000000, 0x00000000, 0x00000000, 0x00000018]
  const W2: Row := [0x61626380, 0x000f0000, 0x7da86405, 0x600003c6, 0x3e9d7b78, 0x0183fc00, 0x12dcbfdb, 0xe2e2c38e]
  const W3: Row := [0xc8215c1a, 0xb73679a2, 0xe5bc3909, 0x32663c5b, 0x9d209d67, 0xec8726cb, 0x702138a4, 0xd3b7973b]
  const W4: Row := [0x93f5997f, 0x3b68ba73, 0xaff4ffc1, 0xf10a5c62, 0x0a8b3996, 0x72af830a, 0x9409e33e, 0x24641522]
  const W5: Row := [0x9f47bf94, 0xf0a64f5a, 0x3e246a79, 0x27333ba3, 0x0c4763f2, 0x840abf27, 0x7a290d5d, 0x065c43da]
  const W6: Row := [0xfb3e89cb, 0xcc7617db, 0xb9e66c34, 0xa9993667, 0x84badedd, 0xc21462bc, 0x1487472c, 0xb20f7a99]
  const W7: Row := [0xef57b9cd, 0xebe6b238, 0x9fe3095e, 0x78bc8d4b, 0xa43fcf15, 0x668b2ff8, 0xeeaba2cc, 0x12b1edeb]

  // The variables a and e after every round, eight rounds at a time; the other six are older ones
  const A: Row := [0x00000000, 0x00000000, 0x00000000, 0x00000000, 0xa54ff53a, 0x3c6ef372, 0xbb67ae85, 0x6a09e667]
  const A0: Row := [0x5d6aebcd, 0x5a6ad9ad, 0xc8c347a7, 0xd550f666, 0x04409a6a, 0x2b4209f5, 0xe5030380, 0x85a07b5f]
  const A1: Row := [0x8e04ecb9, 0x8c87346b, 0x4798a3f4, 0xf71fc5a9, 0x87912990, 0xd932eb16, 0xc0645fde, 0xb0fa238e]
  const A2: Row := [0x21da9a9b, 0xc2fbd9d1, 0xfe777bbf, 0xe1f20c33, 0x9dc68b63, 0xc2606d6d, 0xa7a3623f, 0xc5d53d8d]
  const A3: Row := [0x1c2c2838, 0xcde8037d, 0xb62ec4bc, 0x77d37528, 0x363482c9, 0xa0060b30, 0xea992a22, 0x73b33bf5]
  const A4: Row := [0x98e12507, 0xfe604df5, 0xa9a7738c, 0x65a0cfe4, 0x41a65cb1, 0x34df1604, 0x6dc57a8a, 0x79ea687a]
  const A5: Row := [0xd6670766, 0xdf46652f, 0x17aa0dfe, 0x9d4baf93, 0x26628815, 0x72ab4b91, 0xa14c14b0, 0x4172328d]
  const A6: Row := [0x05757ceb, 0xf11bfaa8, 0x7a0508a1, 0x886e7a22, 0x101fd28f, 0xf5702fdb, 0x3ec45cdb, 0x38cc9913]
  const A7: Row := [0xfcd1887b, 0xc062d46f, 0xffb70472, 0xb6ae8fff, 0xb85e2ce9, 0x04d24d6c, 0xd39a2165, 0x506e3058]
  const E: Row := [0x00000000, 0x00000000, 0x00000000, 0x00000000, 0x5be0cd19, 0x1f83d9ab, 0x9b05688c, 0x510e527f]
  const E0: Row := [0xfa2a4622, 0x78ce7989, 0xf92939eb, 0x24e00850, 0x43ada245, 0x714260ad, 0x9b27a401, 0x0c657a79]
  const E1: Row := [0x32ca2d8c, 0x1cc92596, 0x436b23e8, 0x816fd6e9, 0x1e578218, 0x745a48de, 0x0b92f20c, 0x07590dcd]
  const E2: Row := [0x8034229c, 0x846ee454, 0xcc899961, 0xb0638179, 0x8ada8930, 0xe1257970, 0x49f5114a, 0xaa47c347]
  const E3: Row := [0x2823ef91, 0x14383d8e, 0xc74c6516, 0xedffbff8, 0x6112a3b7, 0xade79437, 0x0109ab3a, 0xba591112]
  const E4: Row := [0x9cd9f5f6, 0x59249dd3, 0x085f3833, 0xf4b002d6, 0x0772a26b, 0xa507a53d, 0xf0781bc8, 0x1efbc0a0]
  const E5: Row := [0x26352d63, 0x838b2711, 0xdecd4715, 0xfda24c2e, 0xa80f11f0, 0xb7755da1, 0xd57b94a9, 0xfecf0bc6]
  const E6: Row := [0xbd714038, 0x6e5c390c, 0x52f1ccf7, 0x49231c1e, 0x529e7d00, 0x9f4787c3, 0xe50e1b4f, 0x54cb266b]
  const E7: Row := [0x9b5e906c, 0x7e44008e, 0x6d83bfc6, 0xb21bad3d, 0x961f4894, 0x948d25b6, 0xfb121210, 0x5ef50f24]

  const HASH := Vars(0xba7816bf, 0x8f01cfea, 0x414140de, 0x5dae2223, 0xb00361a3, 0x96177a9c, 0xb410ff61, 0xf20015ad)

  function Mixed(w2: Word, w7: Word, w15: Word, w16: Word): Word {
    Sum4(SmallSigma1(w2), w7, SmallSigma0(w15), w16)
  }

  /** Row c of a schedule follows rows a and b. */
  predicate RowFollows(a: Row, b: Row, c: Row) {
    && c[0] == Mixed(b[6], b[1], a[1], a[0]) && c[1] == Mixed(b[7], b[2], a[2], a[1])
    && c[2] == Mixed(c[0], b[3], a[3], a[2]) && c[3] == Mixed(c[1], b[4], a[4], a[3])
    && c[4] == Mixed(c[2], b[5], a[5], a[4]) && c[5] == Mixed(c[3], b[6], a[6], a[5])
    && c[6] == Mixed(c[4], b[7], a[7], a[6]) && c[7] == Mixed(c[5], c[0], b[0], a[7])
  }

  /** Four rounds: the last four values of a and of e, and the four that follow. */
  predicate FourRounds(
    a0: Word, a1: Word, a2: Word, a3: Word, a4: Word, a5: Word, a6: Word, a7: Word,
    e0: Word, e1: Word, e2: Word, e3: Word, e4: Word, e5: Word, e6: Word, e7: Word,
    k0: Word, k1: Word, k2: Word, k3: Word, w0: Word, w1: Word, w2: Word, w3: Word)
  {
    && Round(Vars(a3, a2, a1, a0, e3, e2, e1, e0), k0, w0) == Vars(a4, a3, a2, a1, e4, e3, e2, e1)
    && Round(Vars(a4, a3, a2, a1, e4, e3, e2, e1), k1, w1) == Vars(a5, a4, a3, a2, e5, e4, e3, e2)
    && Round(Vars(a5, a4, a3, a2, e5, e4, e3, e2), k2, w2) == Vars(a6, a5, a4, a3, e6, e5, e4, e3)
    && Round(Vars(a6, a5, a4, a3, e6, e5, e4, e3), k3, w3) == Vars(a7, a6, a5, a4, e7, e6, e5, e4)
  }

  predicate FirstFour(p: Row, q: Row, a: Row, e: Row, k: Row, w: Row) {
    FourRounds(p[4], p[5], p[6], p[7], a[0], a[1], a[2], a[3], q[4], q[5], q[6], q[7], e[0], e[1], e[2], e[3],
               k[0], k[1], k[2], k[3], w[0], w[1], w[2], w[3])
  }

  predicate LastFour(a: Row, e: Row, k: Row, w: Row) {
    FourRounds(a[0], a[1], a[2], a[3], a[4], a[5], a[6], a[7], e[0], e[1], e[2], e[3], e[4], e[5], e[6], e[7],
               k[4], k[5], k[6], k[7], w[4], w[5], w[6], w[7])
  }

  // The computation, in pieces the solver does by itself
  lemma Row2() ensures RowFollows(W0, W1, W2) {}
  lemma Row3() ensures RowFollows(W1, W2, W3) {}
  lemma Row4() ensures RowFollows(W2, W3, W4) {}
  lemma Row5() ensures RowFollows(W3, W4, W5) {}
  lemma Row6() ensures RowFollows(W4, W5, W6) {}
  lemma Row7() ensures RowFollows(W5, W6, W7) {}
  lemma First0() ensures FirstFour(A, E, A0, E0, K0, W0) {}
  lemma Last0() ensures LastFour(A0, E0, K0, W0) {}
  lemma First1() ensures FirstFour(A0, E0, A1, E1, K1, W1) {}
  lemma Last1() ensures LastFour(A1, E1, K1, W1) {}
  lemma First2() ensures FirstFour(A1, E1, A2, E2, K2, W2) {}
  lemma Last2() ensures LastFour(A2, E2, K2, W2) {}
  lemma First3() ensures FirstFour(A2, E2, A3, E3, K3, W3) {}
  lemma Last3() ensures LastFour(A3, E3, K3, W3) {}
  lemma First4() ensures FirstFour(A3, E3, A4, E4, K4, W4) {}
  lemma Last4() ensures LastFour(A4, E4, K4, W4) {}
  lemma First5() ensures FirstFour(A4, E4, A5, E5, K5, W5) {}
  lemma Last5() ensures LastFour(A5, E5, K5, W5) {}
  lemma First6() ensures FirstFour(A5, E5, A6, E6, K6, W6) {}
  lemma Last6() ensures LastFour(A6, E6, K6, W6) {}
  lemma First7() ensures FirstFour(A6, E6, A7, E7, K7, W7) {}
  lemma Last7() ensures LastFour(A7, E7, K7, W7) {}

  lemma Sum()
    ensures Add(Latest(A7, E7), H0) == HASH && Latest(A, E) == H0
  {
  }

  // ---------------------------------------------------------------------------------------
  // The pieces put together
  // ---------------------------------------------------------------------------------------

  /** The working variables when p and q are the last eight values of a and e. */
  function Latest(p: Row, q: Row): Vars {
    Vars(p[7], p[6], p[5], p[4], q[7], q[6], q[5], q[4])
  }

  predicate HoldsRow(b: Chunk, r: nat, row: Row)
    requires r < 8
  {
    forall i :: 0 <= i < 8 ==> W(b, 8 * r + i) == row[i]
  }

  lemma WordFollows(b: Chunk, t: nat)
    requires 16 <= t < 64
    ensures W(b, t) == Mixed(W(b, t - 2), W(b, t - 7), W(b, t - 15), W(b, t - 16))
  {
  }

  lemma FirstWordsFollow(b: Chunk, r: nat, x: Row, y: Row, z: Row)
    requires 2 <= r < 8 && HoldsRow(b, r - 2, x) && HoldsRow(b, r - 1, y) && RowFollows(x, y, z)
    ensures W(b, 8 * r) == z[0] && W(b, 8 * r + 1) == z[1] && W(b, 8 * r + 2) == z[2] && W(b, 8 * r + 3) == z[3]
  {
    hide W, Mixed;
    RowWords(b, r - 2, x);
    RowWords(b, r - 1, y);
    hide HoldsRow;
    WordFollows(b, 8 * r);
    assert W(b, 8 * r) == z[0];
    WordFollows(b, 8 * r + 1);
    assert W(b, 8 * r + 1) == z[1];
    WordFollows(b, 8 * r + 2);
    assert W(b, 8 * r + 2) == z[2];
    WordFollows(b, 8 * r + 3);
    assert W(b, 8 * r + 3) == z[3];
  }

  lemma RowLifts(b: Chunk, r: nat, x: Row, y: Row, z: Row)
    requires 2 <= r < 8 && HoldsRow(b, r - 2, x) && HoldsRow(b, r - 1, y) && RowFollows(x, y, z)
    ensures HoldsRow(b, r, z)
  {
    hide W, Mixed;
    FirstWordsFollow(b, r, x, y, z);
    RowWords(b, r - 2, x);
    RowWords(b, r - 1, y);
    hide HoldsRow;
    WordFollows(b, 8 * r + 4);
    assert W(b, 8 * r + 4) == z[4];
    WordFollows(b, 8 * r + 5);
    assert W(b, 8 * r + 5) == z[5];
    WordFollows(b, 8 * r + 6);
    assert W(b, 8 * r + 6) == z[6];
    WordFollows(b, 8 * r + 7);
    assert W(b, 8 * r + 7) == z[7];
    AllWords(b, r, z);
  }

  lemma RowWords(b: Chunk, r: nat, x: Row)
    requires r < 8 && HoldsRow(b, r, x)
    ensures W(b, 8 * r) == x[0] && W(b, 8 * r + 1) == x[1] && W(b, 8 * r + 2) == x[2] && W(b, 8 * r + 3) == x[3]
    ensures W(b, 8 * r + 4) == x[4] && W(b, 8 * r + 5) == x[5] && W(b, 8 * r + 6) == x[6] && W(b, 8 * r + 7) == x[7]
  {
    hide W;
  }

  lemma AllWords(b: Chunk, r: nat, x: Row)
    requires r < 8
    requires W(b, 8 * r) == x[0] && W(b, 8 * r + 1) == x[1] && W(b, 8 * r + 2) == x[2] && W(b, 8 * r + 3) == x[3]
    requires W(b, 8 * r + 4) == x[4] && W(b, 8 * r + 5) == x[5] && W(b, 8 * r + 6) == x[6] && W(b, 8 * r + 7) == x[7]
    ensures HoldsRow(b, r, x)
  {
    hide W;
    forall i | 0 <= i < 8 ensures W(b, 8 * r + i) == x[i] {
      assert i in {0, 1, 2, 3, 4, 5, 6, 7};
    }
  }

  lemma NextRound(b: Chunk, r: nat, i: nat, k: Row, w: Row)
    requires r < 8 && i < 8 && HoldsRow(b, r, w) && K[r] == k
    ensures Rounds(b, H0, 8 * r + i + 1) == Round(Rounds(b, H0, 8 * r + i), k[i], w[i])
  {
    hide Round, W, H0, K;
    assert W(b, 8 * r + i) == w[i];
    assert (8 * r + i) / 8 == r && (8 * r + i) % 8 == i;
  }

  lemma RoundsLift(b: Chunk, r: nat, p: Row, q: Row, a: Row, e: Row, k: Row, w: Row)
    requires r < 8 && Rounds(b, H0, 8 * r) == Latest(p, q) && HoldsRow(b, r, w) && K[r] == k
    requires FirstFour(p, q, a, e, k, w) && LastFour(a, e, k, w)
    ensures Rounds(b, H0, 8 * r + 8) == Latest(a, e)
  {
    hide Round, Rounds, HoldsRow, K, H0;
    NextRound(b, r, 0, k, w); NextRound(b, r, 1, k, w); NextRound(b, r, 2, k, w); NextRound(b, r, 3, k, w);
    NextRound(b, r, 4, k, w); NextRound(b, r, 5, k, w); NextRound(b, r, 6, k, w); NextRound(b, r, 7, k, w);
  }

  lemma ScheduleOfAbc(b: Chunk)
    requires HoldsRow(b, 0, W0) && HoldsRow(b, 1, W1)
    ensures HoldsRow(b, 2, W2) && HoldsRow(b, 3, W3) && HoldsRow(b, 4, W4) && HoldsRow(b, 5, W5)
    ensures HoldsRow(b, 6, W6) && HoldsRow(b, 7, W7)
  {
    hide HoldsRow, RowFollows;
    Row2(); RowLifts(b, 2, W0, W1, W2);
    Row3(); RowLifts(b, 3, W1, W2, W3);
    Row4(); RowLifts(b, 4, W2, W3, W4);
    Row5(); RowLifts(b, 5, W3, W4, W5);
    Row6(); RowLifts(b, 6, W4, W5, W6);
    Row7(); RowLifts(b, 7, W5, W6, W7);
  }

  lemma ConstantRows()
    ensures K[0] == K0 && K[1] == K1 && K[2] == K2 && K[3] == K3 && K[4] == K4 && K[5] == K5 && K[6] == K6 && K[7] == K7
  {
  }

  lemma RoundsOfAbc(b: Chunk)
    requires HoldsRow(b, 0, W0) && HoldsRow(b, 1, W1)
    ensures Rounds(b, H0, 64) == Latest(A7, E7)
  {
    hide HoldsRow, FirstFour, LastFour, Rounds, Latest, K, K0, K1, K2, K3, K4, K5, K6, K7, H0;
    hide W0, W1, W2, W3, W4, W5, W6, W7, A, A0, A1, A2, A3, A4, A5, A6, A7, E, E0, E1, E2, E3, E4, E5, E6, E7;
    ScheduleOfAbc(b);
    ConstantRows();
    RowsOfEight();
    Sum();
    NoRounds(b);
    First0(); Last0(); RoundsLift(b, 0, A, E, A0, E0, K0, W0);
    First1(); Last1(); RoundsLift(b, 1, A0, E0, A1, E1, K1, W1);
    First2(); Last2(); RoundsLift(b, 2, A1, E1, A2, E2, K2, W2);
    First3(); Last3(); RoundsLift(b, 3, A2, E2, A3, E3, K3, W3);
    First4(); Last4(); RoundsLift(b, 4, A3, E3, A4, E4, K4, W4);
    First5(); Last5(); RoundsLift(b, 5, A4, E4, A5, E5, K5, W5);
    First6(); Last6(); RoundsLift(b, 6, A5, E5, A6, E6, K6, W6);
    First7(); Last7(); RoundsLift(b, 7, A6, E6, A7, E7, K7, W7);
  }

  lemma NoRounds(b: Chunk)
    ensures Rounds(b, H0, 0) == H0
  {
  }

  lemma RowsOfEight()
    ensures |K0| == |K1| == |K2| == |K3| == |K4| == |K5| == |K6| == |K7| == 8
  {
  }

  /** The padded message: "abc", a one bit, and the length 24 in the last byte. */
  lemma PaddedAbc()
    ensures |Pad(ABC)| == 64 && HoldsRow(Pad(ABC), 0, W0) && HoldsRow(Pad(ABC), 1, W1)
  {
    hide ToWord, LengthField;
    var p := Pad(ABC);
    LengthOfAbc();
    assert p[0] == 97 && p[1] == 98 && p[2] == 99 && p[3] == 0x80;
    assert forall i :: 4 <= i < 56 ==> p[i] == 0;
    assert forall i :: 56 <= i < 64 ==> p[i] == LengthField(3)[i - 56];
    FirstWords();
    forall t | 0 <= t < 16 ensures W(p, t) == if t == 0 then 0x61626380 else if t == 15 then 24 else 0 {
      assert W(p, t) == M(p, t);
    }
    RowsOfMessage(p);
  }

  lemma RowsOfMessage(b: Chunk)
    requires forall t :: 0 <= t < 16 ==> W(b, t) == if t == 0 then 0x61626380 else if t == 15 then 24 else 0
    ensures HoldsRow(b, 0, W0) && HoldsRow(b, 1, W1)
  {
    hide W;
    AllWords(b, 0, W0);
    AllWords(b, 1, W1);
  }

  lemma FirstWords()
    ensures ToWord(97, 98, 99, 0x80) == 0x61626380 && ToWord(0, 0, 0, 0) == 0 && ToWord(0, 0, 0, 24) == 24
  {
  }

  lemma LengthOfAbc()
    ensures LengthField(3)[7] == 24 && forall i :: 0 <= i < 7 ==> LengthField(3)[i] == 0
  {
    hide ByteOf;
    assert BE(24, 8) == BE(0, 7) + [ByteOf(24)];
    hide BE;
    ByteIs24();
    ZeroBE(7);
  }

  lemma ByteIs24()
    ensures ByteOf(24) == 24
  {
  }

  lemma {:induction false} ZeroBE(width: nat)
    ensures forall i :: 0 <= i < width ==> BE(0, width)[i] == 0
  {
    if width > 0 {
      ZeroBE(width - 1);
    }
  }

  /** The hash of "abc", word by word. */
  lemma HashOfAbc()
    ensures Hash(ABC) ==
      Flatten([0xba7816bf, 0x8f01cfea, 0x414140de, 0x5dae2223,
               0xb00361a3, 0x96177a9c, 0xb410ff61, 0xf20015ad])
  {
    hide HoldsRow, Rounds, Add, Flatten, Pad, Latest, H0;
    PaddedAbc();
    var p := Pad(ABC);
    assert ChunkAt(p, 0) == p;
    RoundsOfAbc(p);
    Sum();
    assert Chain(p, 0) == H0;
    assert Chain(p, 1) == Compress(H0, p) == HASH;
  }
}
