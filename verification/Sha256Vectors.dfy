/**
 The constants of SHA-256, after sections 4.2.2 and 5.3.3 of FIPS 180-4, and the answer for "abc"
 that the tests of kernel/src/crypto/sha256.rs promise.
 */
module Sha256Vectors {
  import opened Sha256

  // ---------------------------------------------------------------------------
  // The constants
  // ---------------------------------------------------------------------------

  /** The first 64 primes. */
  const PRIMES: seq<seq<nat>> :=
    [[2, 3, 5, 7, 11, 13, 17, 19],
     [23, 29, 31, 37, 41, 43, 47, 53],
     [59, 61, 67, 71, 73, 79, 83, 89],
     [97, 101, 103, 107, 109, 113, 127, 131],
     [137, 139, 149, 151, 157, 163, 167, 173],
     [179, 181, 191, 193, 197, 199, 211, 223],
     [227, 229, 233, 239, 241, 251, 257, 263],
     [269, 271, 277, 281, 283, 293, 307, 311]]

  function Prime(t: nat): nat
    requires t < 64
  {
    PRIMES[t / 8][t % 8]
  }

  const TWO_32: nat := 0x1_0000_0000

  function Fixed(whole: nat, bits: bv32): nat { whole * TWO_32 + bits as nat }

  /** `x` is the square root of `p` in units of 2^-32, rounded down. */
  predicate IsSquareRoot(x: nat, p: nat) { x * x <= p * TWO_32 * TWO_32 < (x + 1) * (x + 1) }

  predicate IsCubeRoot(x: nat, p: nat) {
    x * x * x <= p * TWO_32 * TWO_32 * TWO_32 < (x + 1) * (x + 1) * (x + 1)
  }

  /** The word is the first 32 bits of the fractional part of the root. */
  ghost predicate SquareRootBits(w: bv32, p: nat) { exists a: nat :: IsSquareRoot(Fixed(a, w), p) }

  ghost predicate CubeRootBits(w: bv32, p: nat) { exists a: nat :: IsCubeRoot(Fixed(a, w), p) }

  ghost predicate ConstantsTo(n: nat)
    requires n <= 64
  {
    forall t :: 0 <= t < n ==> CubeRootBits(RoundConstant(t), Prime(t))
  }

  lemma Constant(t: nat, w: bv32, p: nat, a: nat)
    requires t < 64 && RoundConstant(t) == w && Prime(t) == p && ConstantsTo(t) && IsCubeRoot(Fixed(a, w), p)
    ensures ConstantsTo(t + 1)
  {
    hide IsCubeRoot, Fixed, RoundConstant, Prime;
  }

  lemma Constants13()
    ensures ConstantsTo(13)
  {
    hide ConstantsTo;
    NoConstants();
    Constant(0, 0x428a2f98, 2, 1); Constant(1, 0x71374491, 3, 1);
    Constant(2, 0xb5c0fbcf, 5, 1); Constant(3, 0xe9b5dba5, 7, 1);
    Constant(4, 0x3956c25b, 11, 2); Constant(5, 0x59f111f1, 13, 2);
    Constant(6, 0x923f82a4, 17, 2); Constant(7, 0xab1c5ed5, 19, 2);
    Constant(8, 0xd807aa98, 23, 2); Constant(9, 0x12835b01, 29, 3);
    Constant(10, 0x243185be, 31, 3); Constant(11, 0x550c7dc3, 37, 3);
    Constant(12, 0x72be5d74, 41, 3);
  }

  lemma Constants26()
    ensures ConstantsTo(26)
  {
    hide ConstantsTo;
    Constants13();
    Constant(13, 0x80deb1fe, 43, 3); Constant(14, 0x9bdc06a7, 47, 3);
    Constant(15, 0xc19bf174, 53, 3); Constant(16, 0xe49b69c1, 59, 3);
    Constant(17, 0xefbe4786, 61, 3); Constant(18, 0x0fc19dc6, 67, 4);
    Constant(19, 0x240ca1cc, 71, 4); Constant(20, 0x2de92c6f, 73, 4);
    Constant(21, 0x4a7484aa, 79, 4); Constant(22, 0x5cb0a9dc, 83, 4);
    Constant(23, 0x76f988da, 89, 4); Constant(24, 0x983e5152, 97, 4);
    Constant(25, 0xa831c66d, 101, 4);
  }

  lemma Constants39()
    ensures ConstantsTo(39)
  {
    hide ConstantsTo;
    Constants26();
    Constant(26, 0xb00327c8, 103, 4); Constant(27, 0xbf597fc7, 107, 4);
    Constant(28, 0xc6e00bf3, 109, 4); Constant(29, 0xd5a79147, 113, 4);
    Constant(30, 0x06ca6351, 127, 5); Constant(31, 0x14292967, 131, 5);
    Constant(32, 0x27b70a85, 137, 5); Constant(33, 0x2e1b2138, 139, 5);
    Constant(34, 0x4d2c6dfc, 149, 5); Constant(35, 0x53380d13, 151, 5);
    Constant(36, 0x650a7354, 157, 5); Constant(37, 0x766a0abb, 163, 5);
    Constant(38, 0x81c2c92e, 167, 5);
  }

  lemma Constants52()
    ensures ConstantsTo(52)
  {
    hide ConstantsTo;
    Constants39();
    Constant(39, 0x92722c85, 173, 5); Constant(40, 0xa2bfe8a1, 179, 5);
    Constant(41, 0xa81a664b, 181, 5); Constant(42, 0xc24b8b70, 191, 5);
    Constant(43, 0xc76c51a3, 193, 5); Constant(44, 0xd192e819, 197, 5);
    Constant(45, 0xd6990624, 199, 5); Constant(46, 0xf40e3585, 211, 5);
    Constant(47, 0x106aa070, 223, 6); Constant(48, 0x19a4c116, 227, 6);
    Constant(49, 0x1e376c08, 229, 6); Constant(50, 0x2748774c, 233, 6);
    Constant(51, 0x34b0bcb5, 239, 6);
  }

  lemma Constants64()
    ensures ConstantsTo(64)
  {
    hide ConstantsTo;
    Constants52();
    Constant(52, 0x391c0cb3, 241, 6); Constant(53, 0x4ed8aa4a, 251, 6);
    Constant(54, 0x5b9cca4f, 257, 6); Constant(55, 0x682e6ff3, 263, 6);
    Constant(56, 0x748f82ee, 269, 6); Constant(57, 0x78a5636f, 271, 6);
    Constant(58, 0x84c87814, 277, 6); Constant(59, 0x8cc70208, 281, 6);
    Constant(60, 0x90befffa, 283, 6); Constant(61, 0xa4506ceb, 293, 6);
    Constant(62, 0xbef9a3f7, 307, 6); Constant(63, 0xc67178f2, 311, 6);
  }

  lemma NoConstants()
    ensures ConstantsTo(0)
  {
  }

  lemma InitialWord(i: nat, w: bv32, p: nat, a: nat)
    requires i < 8 && H_INIT[i] == w && Prime(i) == p && IsSquareRoot(Fixed(a, w), p)
    ensures SquareRootBits(H_INIT[i], Prime(i))
  {
    hide IsSquareRoot, Fixed, Prime;
  }

  /** The constant of every round, and the initial chaining value. */
  lemma Constants()
    ensures forall t :: 0 <= t < 64 ==> CubeRootBits(RoundConstant(t), Prime(t))
    ensures forall i :: 0 <= i < 8 ==> SquareRootBits(H_INIT[i], Prime(i))
  {
    Constants64();
    hide CubeRootBits, SquareRootBits;
    InitialWord(0, 0x6a09e667, 2, 1); InitialWord(1, 0xbb67ae85, 3, 1);
    InitialWord(2, 0x3c6ef372, 5, 2); InitialWord(3, 0xa54ff53a, 7, 2);
    InitialWord(4, 0x510e527f, 11, 3); InitialWord(5, 0x9b05688c, 13, 3);
    InitialWord(6, 0x1f83d9ab, 17, 4); InitialWord(7, 0x5be0cd19, 19, 4);
  }

  // ---------------------------------------------------------------------------
  // The digest of "abc"
  // ---------------------------------------------------------------------------

  /** The one block of the padded message. */
  ghost predicate IsAbc(b: Block) {
    && b[0] == 0x61 && b[1] == 0x62 && b[2] == 0x63 && b[3] == 0x80 && b[63] == 0x18
    && forall i :: 4 <= i < 63 ==> b[i] == 0
  }

  lemma {:induction false} SmallBytes(n: nat, k: nat)
    requires n < 256 && k > 0
    ensures BeBytes(n, k) == Zeros(k - 1) + [n as bv8]
  {
    if k > 1 {
      SmallBytes(0, k - 1);
      assert Zeros(k - 2) + [0] == Zeros(k - 1);
    } else {
      assert BeBytes(n / 256, 0) == [] == Zeros(0);
    }
  }

  lemma AbcPadded() returns (b: Block)
    ensures b == [0x61, 0x62, 0x63] + Padding(3) && IsAbc(b)
  {
    hide BeBytes;
    SmallBytes(24, 8);
    b := [0x61, 0x62, 0x63] + Padding(3);
    assert b == [0x61, 0x62, 0x63, 0x80] + Zeros(52) + Zeros(7) + [0x18];
  }

  /** Eight words of the message schedule. */
  ghost predicate Words(m: Block, t: nat, a: bv32, b: bv32, c: bv32, d: bv32, e: bv32, f: bv32, g: bv32, h: bv32)
    requires t + 8 <= 64
  {
    && Schedule(m, t) == a && Schedule(m, t + 1) == b && Schedule(m, t + 2) == c && Schedule(m, t + 3) == d
    && Schedule(m, t + 4) == e && Schedule(m, t + 5) == f && Schedule(m, t + 6) == g && Schedule(m, t + 7) == h
  }

  lemma FirstWords(b: Block)
    requires IsAbc(b)
    ensures Words(b, 0, 0x61626380, 0, 0, 0, 0, 0, 0, 0) && Words(b, 8, 0, 0, 0, 0, 0, 0, 0, 0x18)
  {
    hide Schedule, IsAbc;
    FirstWord(b, 0);
    FirstWord(b, 15);
    forall t | 0 < t < 15 ensures Schedule(b, t) == 0 {
      FirstWord(b, t);
    }
  }

  lemma FirstWord(b: Block, t: nat)
    requires IsAbc(b) && t < 16
    ensures Schedule(b, t) == if t == 0 then 0x61626380 else if t == 15 then 0x18 else 0
  {
    assert FromBe(0x61, 0x62, 0x63, 0x80) == 0x61626380 && FromBe(0, 0, 0, 0x18) == 0x18 && FromBe(0, 0, 0, 0) == 0;
    hide FromBe;
  }

  lemma Word(b: Block, t: nat, w: bv32)
    requires 16 <= t < 64
    requires w == Add(Add(Add(SmallSigma1(Schedule(b, t - 2)), Schedule(b, t - 7)),
                          SmallSigma0(Schedule(b, t - 15))), Schedule(b, t - 16))
    ensures Schedule(b, t) == w
  {
    hide SmallSigma0, SmallSigma1, Add, FromBe;
  }

  lemma Words16(b: Block)
    requires IsAbc(b)
    ensures Words(b, 16, 0x61626380, 0x000f0000, 0x7da86405, 0x600003c6, 0x3e9d7b78, 0x0183fc00, 0x12dcbfdb, 0xe2e2c38e)
    ensures Words(b, 24, 0xc8215c1a, 0xb73679a2, 0xe5bc3909, 0x32663c5b, 0x9d209d67, 0xec8726cb, 0x702138a4, 0xd3b7973b)
  {
    hide Schedule, IsAbc;
    FirstWords(b);
    Word(b, 16, 0x61626380); Word(b, 17, 0x000f0000); Word(b, 18, 0x7da86405); Word(b, 19, 0x600003c6);
    Word(b, 20, 0x3e9d7b78); Word(b, 21, 0x0183fc00); Word(b, 22, 0x12dcbfdb); Word(b, 23, 0xe2e2c38e);
    Word(b, 24, 0xc8215c1a); Word(b, 25, 0xb73679a2); Word(b, 26, 0xe5bc3909); Word(b, 27, 0x32663c5b);
    Word(b, 28, 0x9d209d67); Word(b, 29, 0xec8726cb); Word(b, 30, 0x702138a4); Word(b, 31, 0xd3b7973b);
  }

  lemma Words32(b: Block)
    requires IsAbc(b)
    ensures Words(b, 32, 0x93f5997f, 0x3b68ba73, 0xaff4ffc1, 0xf10a5c62, 0x0a8b3996, 0x72af830a, 0x9409e33e, 0x24641522)
    ensures Words(b, 40, 0x9f47bf94, 0xf0a64f5a, 0x3e246a79, 0x27333ba3, 0x0c4763f2, 0x840abf27, 0x7a290d5d, 0x065c43da)
  {
    hide Schedule, IsAbc;
    Words16(b);
    Word(b, 32, 0x93f5997f); Word(b, 33, 0x3b68ba73); Word(b, 34, 0xaff4ffc1); Word(b, 35, 0xf10a5c62);
    Word(b, 36, 0x0a8b3996); Word(b, 37, 0x72af830a); Word(b, 38, 0x9409e33e); Word(b, 39, 0x24641522);
    Word(b, 40, 0x9f47bf94); Word(b, 41, 0xf0a64f5a); Word(b, 42, 0x3e246a79); Word(b, 43, 0x27333ba3);
    Word(b, 44, 0x0c4763f2); Word(b, 45, 0x840abf27); Word(b, 46, 0x7a290d5d); Word(b, 47, 0x065c43da);
  }

  lemma Words48(b: Block)
    requires IsAbc(b)
    ensures Words(b, 48, 0xfb3e89cb, 0xcc7617db, 0xb9e66c34, 0xa9993667, 0x84badedd, 0xc21462bc, 0x1487472c, 0xb20f7a99)
    ensures Words(b, 56, 0xef57b9cd, 0xebe6b238, 0x9fe3095e, 0x78bc8d4b, 0xa43fcf15, 0x668b2ff8, 0xeeaba2cc, 0x12b1edeb)
  {
    hide Schedule, IsAbc;
    Words32(b);
    Word(b, 48, 0xfb3e89cb); Word(b, 49, 0xcc7617db); Word(b, 50, 0xb9e66c34); Word(b, 51, 0xa9993667);
    Word(b, 52, 0x84badedd); Word(b, 53, 0xc21462bc); Word(b, 54, 0x1487472c); Word(b, 55, 0xb20f7a99);
    Word(b, 56, 0xef57b9cd); Word(b, 57, 0xebe6b238); Word(b, 58, 0x9fe3095e); Word(b, 59, 0x78bc8d4b);
    Word(b, 60, 0xa43fcf15); Word(b, 61, 0x668b2ff8); Word(b, 62, 0xeeaba2cc); Word(b, 63, 0x12b1edeb);
  }

  const START: Vars := Vars(H_INIT[0], H_INIT[1], H_INIT[2], H_INIT[3], H_INIT[4], H_INIT[5], H_INIT[6], H_INIT[7])

  /** One round with its constant; it gives new values to a and e and moves the others on. */
  lemma OneRound(b: Block, t: nat, k: bv32, a: bv32, e: bv32)
    requires t < 64 && RoundConstant(t) == k
    requires var r := Round(Rounds(START, b, t), k, Schedule(b, t)); r.a == a && r.e == e
    ensures var v := Rounds(START, b, t);
            Rounds(START, b, t + 1) == Vars(a, v.a, v.b, v.c, e, v.e, v.f, v.g)
  {
    hide RoundConstant, Schedule, BigSigma0, BigSigma1, Ch, Maj, Add;
  }

  lemma Rounds16(b: Block)
    requires IsAbc(b)
    ensures Rounds(START, b, 16) == Vars(0xb0fa238e, 0xc0645fde, 0xd932eb16, 0x87912990, 0x07590dcd, 0x0b92f20c, 0x745a48de, 0x1e578218)
  {
    hide Schedule, Rounds, IsAbc;
    NoRounds(b); FirstWords(b);
    OneRound(b, 0, 0x428a2f98, 0x5d6aebcd, 0xfa2a4622); OneRound(b, 1, 0x71374491, 0x5a6ad9ad, 0x78ce7989);
    OneRound(b, 2, 0xb5c0fbcf, 0xc8c347a7, 0xf92939eb); OneRound(b, 3, 0xe9b5dba5, 0xd550f666, 0x24e00850);
    OneRound(b, 4, 0x3956c25b, 0x04409a6a, 0x43ada245); OneRound(b, 5, 0x59f111f1, 0x2b4209f5, 0x714260ad);
    OneRound(b, 6, 0x923f82a4, 0xe5030380, 0x9b27a401); OneRound(b, 7, 0xab1c5ed5, 0x85a07b5f, 0x0c657a79);
    OneRound(b, 8, 0xd807aa98, 0x8e04ecb9, 0x32ca2d8c); OneRound(b, 9, 0x12835b01, 0x8c87346b, 0x1cc92596);
    OneRound(b, 10, 0x243185be, 0x4798a3f4, 0x436b23e8); OneRound(b, 11, 0x550c7dc3, 0xf71fc5a9, 0x816fd6e9);
    OneRound(b, 12, 0x72be5d74, 0x87912990, 0x1e578218); OneRound(b, 13, 0x80deb1fe, 0xd932eb16, 0x745a48de);
    OneRound(b, 14, 0x9bdc06a7, 0xc0645fde, 0x0b92f20c); OneRound(b, 15, 0xc19bf174, 0xb0fa238e, 0x07590dcd);
  }

  lemma Rounds32(b: Block)
    requires IsAbc(b)
    ensures Rounds(START, b, 32) == Vars(0x73b33bf5, 0xea992a22, 0xa0060b30, 0x363482c9, 0xba591112, 0x0109ab3a, 0xade79437, 0x6112a3b7)
  {
    hide Schedule, Rounds, IsAbc;
    Rounds16(b); Words16(b);
    OneRound(b, 16, 0xe49b69c1, 0x21da9a9b, 0x8034229c); OneRound(b, 17, 0xefbe4786, 0xc2fbd9d1, 0x846ee454);
    OneRound(b, 18, 0x0fc19dc6, 0xfe777bbf, 0xcc899961); OneRound(b, 19, 0x240ca1cc, 0xe1f20c33, 0xb0638179);
    OneRound(b, 20, 0x2de92c6f, 0x9dc68b63, 0x8ada8930); OneRound(b, 21, 0x4a7484aa, 0xc2606d6d, 0xe1257970);
    OneRound(b, 22, 0x5cb0a9dc, 0xa7a3623f, 0x49f5114a); OneRound(b, 23, 0x76f988da, 0xc5d53d8d, 0xaa47c347);
    OneRound(b, 24, 0x983e5152, 0x1c2c2838, 0x2823ef91); OneRound(b, 25, 0xa831c66d, 0xcde8037d, 0x14383d8e);
    OneRound(b, 26, 0xb00327c8, 0xb62ec4bc, 0xc74c6516); OneRound(b, 27, 0xbf597fc7, 0x77d37528, 0xedffbff8);
    OneRound(b, 28, 0xc6e00bf3, 0x363482c9, 0x6112a3b7); OneRound(b, 29, 0xd5a79147, 0xa0060b30, 0xade79437);
    OneRound(b, 30, 0x06ca6351, 0xea992a22, 0x0109ab3a); OneRound(b, 31, 0x14292967, 0x73b33bf5, 0xba591112);
  }

  lemma Rounds48(b: Block)
    requires IsAbc(b)
    ensures Rounds(START, b, 48) == Vars(0x4172328d, 0xa14c14b0, 0x72ab4b91, 0x26628815, 0xfecf0bc6, 0xd57b94a9, 0xb7755da1, 0xa80f11f0)
  {
    hide Schedule, Rounds, IsAbc;
    Rounds32(b); Words32(b);
    OneRound(b, 32, 0x27b70a85, 0x98e12507, 0x9cd9f5f6); OneRound(b, 33, 0x2e1b2138, 0xfe604df5, 0x59249dd3);
    OneRound(b, 34, 0x4d2c6dfc, 0xa9a7738c, 0x085f3833); OneRound(b, 35, 0x53380d13, 0x65a0cfe4, 0xf4b002d6);
    OneRound(b, 36, 0x650a7354, 0x41a65cb1, 0x0772a26b); OneRound(b, 37, 0x766a0abb, 0x34df1604, 0xa507a53d);
    OneRound(b, 38, 0x81c2c92e, 0x6dc57a8a, 0xf0781bc8); OneRound(b, 39, 0x92722c85, 0x79ea687a, 0x1efbc0a0);
    OneRound(b, 40, 0xa2bfe8a1, 0xd6670766, 0x26352d63); OneRound(b, 41, 0xa81a664b, 0xdf46652f, 0x838b2711);
    OneRound(b, 42, 0xc24b8b70, 0x17aa0dfe, 0xdecd4715); OneRound(b, 43, 0xc76c51a3, 0x9d4baf93, 0xfda24c2e);
    OneRound(b, 44, 0xd192e819, 0x26628815, 0xa80f11f0); OneRound(b, 45, 0xd6990624, 0x72ab4b91, 0xb7755da1);
    OneRound(b, 46, 0xf40e3585, 0xa14c14b0, 0xd57b94a9); OneRound(b, 47, 0x106aa070, 0x4172328d, 0xfecf0bc6);
  }

  lemma Rounds64(b: Block)
    requires IsAbc(b)
    ensures Rounds(START, b, 64) == Vars(0x506e3058, 0xd39a2165, 0x04d24d6c, 0xb85e2ce9, 0x5ef50f24, 0xfb121210, 0x948d25b6, 0x961f4894)
  {
    hide Schedule, Rounds, IsAbc;
    Rounds48(b); Words48(b);
    OneRound(b, 48, 0x19a4c116, 0x05757ceb, 0xbd714038); OneRound(b, 49, 0x1e376c08, 0xf11bfaa8, 0x6e5c390c);
    OneRound(b, 50, 0x2748774c, 0x7a0508a1, 0x52f1ccf7); OneRound(b, 51, 0x34b0bcb5, 0x886e7a22, 0x49231c1e);
    OneRound(b, 52, 0x391c0cb3, 0x101fd28f, 0x529e7d00); OneRound(b, 53, 0x4ed8aa4a, 0xf5702fdb, 0x9f4787c3);
    OneRound(b, 54, 0x5b9cca4f, 0x3ec45cdb, 0xe50e1b4f); OneRound(b, 55, 0x682e6ff3, 0x38cc9913, 0x54cb266b);
    OneRound(b, 56, 0x748f82ee, 0xfcd1887b, 0x9b5e906c); OneRound(b, 57, 0x78a5636f, 0xc062d46f, 0x7e44008e);
    OneRound(b, 58, 0x84c87814, 0xffb70472, 0x6d83bfc6); OneRound(b, 59, 0x8cc70208, 0xb6ae8fff, 0xb21bad3d);
    OneRound(b, 60, 0x90befffa, 0xb85e2ce9, 0x961f4894); OneRound(b, 61, 0xa4506ceb, 0x04d24d6c, 0x948d25b6);
    OneRound(b, 62, 0xbef9a3f7, 0xd39a2165, 0xfb121210); OneRound(b, 63, 0xc67178f2, 0x506e3058, 0x5ef50f24);
  }

  lemma NoRounds(b: Block)
    ensures Rounds(START, b, 0) == Vars(0x6a09e667, 0xbb67ae85, 0x3c6ef372, 0xa54ff53a, 0x510e527f, 0x9b05688c, 0x1f83d9ab, 0x5be0cd19)
  {
  }

  lemma AbcCompressed(b: Block)
    requires IsAbc(b)
    ensures Compressed(H_INIT, b) == [0xba7816bf, 0x8f01cfea, 0x414140de, 0x5dae2223, 0xb00361a3, 0x96177a9c, 0xb410ff61, 0xf20015ad]
  {
    hide Rounds, IsAbc;
    Rounds64(b);
  }

  /** The answer for "abc". */
  lemma DigestOfAbc()
    ensures Hash([0x61, 0x62, 0x63]) ==
            [0xba, 0x78, 0x16, 0xbf, 0x8f, 0x01, 0xcf, 0xea, 0x41, 0x41, 0x40, 0xde, 0x5d, 0xae, 0x22, 0x23]
            + [0xb0, 0x03, 0x61, 0xa3, 0x96, 0x17, 0x7a, 0x9c, 0xb4, 0x10, 0xff, 0x61, 0xf2, 0x00, 0x15, 0xad]
  {
    hide Compressed, Padding, IsAbc;
    var b := AbcPadded();
    AbcCompressed(b);
    assert b[..64] == b && b[64..] == [];
    assert Absorb(H_INIT, b) == Compressed(H_INIT, b);
  }
}
