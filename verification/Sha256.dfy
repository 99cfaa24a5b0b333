/**
 SHA-256 as the kernel computes it: a streaming state that is fed arbitrary slices
 (kernel/src/crypto/sha256.rs), proved equal to the one-shot definition of FIPS 180-4
 (padding of section 5.1.1, hash computation of section 6.2.2).
 */
module Sha256 {

  const H_INIT: seq<bv32> := [
    0x6a09e667, 0xbb67ae85, 0x3c6ef372, 0xa54ff53a,
    0x510e527f, 0x9b05688c, 0x1f83d9ab, 0x5be0cd19]

  const TWO_64: nat := 0x1_0000_0000_0000_0000

  const K: seq<seq<bv32>> :=
    [[0x428a2f98, 0x71374491, 0xb5c0fbcf, 0xe9b5dba5, 0x3956c25b, 0x59f111f1, 0x923f82a4, 0xab1c5ed5],
     [0xd807aa98, 0x12835b01, 0x243185be, 0x550c7dc3, 0x72be5d74, 0x80deb1fe, 0x9bdc06a7, 0xc19bf174],
     [0xe49b69c1, 0xefbe4786, 0x0fc19dc6, 0x240ca1cc, 0x2de92c6f, 0x4a7484aa, 0x5cb0a9dc, 0x76f988da],
     [0x983e5152, 0xa831c66d, 0xb00327c8, 0xbf597fc7, 0xc6e00bf3, 0xd5a79147, 0x06ca6351, 0x14292967],
     [0x27b70a85, 0x2e1b2138, 0x4d2c6dfc, 0x53380d13, 0x650a7354, 0x766a0abb, 0x81c2c92e, 0x92722c85],
     [0xa2bfe8a1, 0xa81a664b, 0xc24b8b70, 0xc76c51a3, 0xd192e819, 0xd6990624, 0xf40e3585, 0x106aa070],
     [0x19a4c116, 0x1e376c08, 0x2748774c, 0x34b0bcb5, 0x391c0cb3, 0x4ed8aa4a, 0x5b9cca4f, 0x682e6ff3],
     [0x748f82ee, 0x78a5636f, 0x84c87814, 0x8cc70208, 0x90befffa, 0xa4506ceb, 0xbef9a3f7, 0xc67178f2]]

  // ---------------------------------------------------------------------------
  // The functions of section 4.1.2
  // ---------------------------------------------------------------------------

  function Ch(x: bv32, y: bv32, z: bv32): bv32 { (x & y) ^ (!x & z) }

  function Maj(x: bv32, y: bv32, z: bv32): bv32 { (x & y) ^ (x & z) ^ (y & z) }

  function BigSigma0(x: bv32): bv32 { x.RotateRight(2) ^ x.RotateRight(13) ^ x.RotateRight(22) }

  function BigSigma1(x: bv32): bv32 { x.RotateRight(6) ^ x.RotateRight(11) ^ x.RotateRight(25) }

  function SmallSigma0(x: bv32): bv32 { x.RotateRight(7) ^ x.RotateRight(18) ^ (x >> 3) }

  function SmallSigma1(x: bv32): bv32 { x.RotateRight(17) ^ x.RotateRight(19) ^ (x >> 10) }

  /** Four bytes read big-endian. */
  function FromBe(b0: bv8, b1: bv8, b2: bv8, b3: bv8): bv32 {
    ((b0 as bv32) << 24) | ((b1 as bv32) << 16) | ((b2 as bv32) << 8) | (b3 as bv32)
  }

  /** A word written big-endian. */
  function ToBe(w: bv32): (r: seq<bv8>)
    ensures |r| == 4
  {
    [((w >> 24) & 0xFF) as bv8, ((w >> 16) & 0xFF) as bv8, ((w >> 8) & 0xFF) as bv8, (w & 0xFF) as bv8]
  }

  /** The low 8 * k bits of n, big-endian. */
  function BeBytes(n: nat, k: nat): (r: seq<bv8>)
    ensures |r| == k
  {
    if k == 0 then [] else BeBytes(n / 256, k - 1) + [(n % 256) as bv8]
  }

  /** `u32::wrapping_add` */
  function Add(x: bv32, y: bv32): bv32 { x + y }

  // ---------------------------------------------------------------------------
  // The reference definition
  // ---------------------------------------------------------------------------

  type Block = s: seq<bv8> | |s| == 64 witness seq(64, _ => 0)

  /** Word t of the message schedule of section 6.2.2, step 1. */
  function Schedule(block: Block, t: nat): bv32
    requires t < 64
  {
    if t < 16 then FromBe(block[t * 4], block[t * 4 + 1], block[t * 4 + 2], block[t * 4 + 3])
    else Add(Add(Add(SmallSigma1(Schedule(block, t - 2)), Schedule(block, t - 7)),
                 SmallSigma0(Schedule(block, t - 15))), Schedule(block, t - 16))
  }

  datatype Vars = Vars(a: bv32, b: bv32, c: bv32, d: bv32, e: bv32, f: bv32, g: bv32, h: bv32)

  function RoundConstant(t: nat): bv32
    requires t < 64
  {
    K[t / 8][t % 8]
  }

  /** One round: section 6.2.2, step 3. */
  function Round(v: Vars, k: bv32, w: bv32): Vars {
    var t1 := Add(Add(Add(Add(v.h, BigSigma1(v.e)), Ch(v.e, v.f, v.g)), k), w);
    var t2 := Add(BigSigma0(v.a), Maj(v.a, v.b, v.c));
    Vars(Add(t1, t2), v.a, v.b, v.c, Add(v.d, t1), v.e, v.f, v.g)
  }

  /** The working variables after t rounds. */
  function Rounds(v: Vars, block: Block, t: nat): Vars
    requires t <= 64
  {
    if t == 0 then v else Round(Rounds(v, block, t - 1), RoundConstant(t - 1), Schedule(block, t - 1))
  }

  type Chaining = s: seq<bv32> | |s| == 8 witness seq(8, _ => 0)

  /** The chaining value after one block: section 6.2.2, steps 2 to 4. */
  function Compressed(h: Chaining, block: Block): Chaining {
    var v := Rounds(Vars(h[0], h[1], h[2], h[3], h[4], h[5], h[6], h[7]), block, 64);
    [Add(h[0], v.a), Add(h[1], v.b), Add(h[2], v.c), Add(h[3], v.d),
     Add(h[4], v.e), Add(h[5], v.f), Add(h[6], v.g), Add(h[7], v.h)]
  }

  /** The chaining value after all blocks of a padded message. */
  function Absorb(h: Chaining, data: seq<bv8>): Chaining
    requires |data| % 64 == 0
    decreases |data|
  {
    if |data| == 0 then h else Absorb(Compressed(h, data[..64]), data[64..])
  }

  /** The least number of zero bytes that makes |m| + 1 + z congruent to 56 modulo 64. */
  function ZeroBytes(len: nat): (z: nat)
    ensures (len + 1 + z) % 64 == 56
    ensures z < 64
  {
    (119 - len % 64) % 64
  }

  function Zeros(n: nat): (r: seq<bv8>)
    ensures |r| == n && forall i :: 0 <= i < n ==> r[i] == 0
  {
    seq(n, _ => 0)
  }

  /** Section 5.1.1: a one bit, zeros, and the length in bits modulo 2^64. */
  function Padding(len: nat): seq<bv8> {
    [0x80] + (Zeros(ZeroBytes(len)) + BeBytes(8 * len, 8))
  }

  lemma PaddedLength(len: nat)
    ensures (len + |Padding(len)|) % 64 == 0
  {
    assert |Padding(len)| == 1 + ZeroBytes(len) + 8;
    NextMultiple(len + 1 + ZeroBytes(len));
  }

  lemma NextMultiple(n: nat)
    requires n % 64 == 56
    ensures (n + 8) % 64 == 0
  {
  }

  function DigestOf(h: Chaining): seq<bv8> {
    ToBe(h[0]) + ToBe(h[1]) + ToBe(h[2]) + ToBe(h[3]) + ToBe(h[4]) + ToBe(h[5]) + ToBe(h[6]) + ToBe(h[7])
  }

  /** SHA-256 of a whole message. */
  function Hash(m: seq<bv8>): seq<bv8> {
    PaddedLength(|m|);
    DigestOf(Absorb(H_INIT, m + Padding(|m|)))
  }

  // ---------------------------------------------------------------------------
  // Facts about the reference definition
  // ---------------------------------------------------------------------------

  lemma {:induction false} AbsorbConcat(h: Chaining, a: seq<bv8>, b: seq<bv8>)
    requires |a| % 64 == 0 && |b| % 64 == 0
    ensures (|a| + |b|) % 64 == 0
    ensures Absorb(h, a + b) == Absorb(Absorb(h, a), b)
    decreases |a|
  {
    hide Compressed;
    if |a| == 0 {
      assert a + b == b;
    } else {
      assert (a + b)[..64] == a[..64] && (a + b)[64..] == a[64..] + b;
      AbsorbConcat(Compressed(h, a[..64]), a[64..], b);
    }
  }

  /** One more block at the end of the absorbed prefix. */
  lemma AbsorbBlock(h: Chaining, a: seq<bv8>, block: Block)
    requires |a| % 64 == 0
    ensures (|a| + 64) % 64 == 0
    ensures Absorb(h, a + block) == Compressed(Absorb(h, a), block)
  {
    AbsorbConcat(h, a, block);
    assert block[..64] == block && block[64..] == [];
  }

  function Pow256(k: nat): nat { if k == 0 then 1 else 256 * Pow256(k - 1) }

  lemma {:induction false} LowBytes(r: nat, q: nat, k: nat)
    ensures BeBytes(r + Pow256(k) * q, k) == BeBytes(r, k)
  {
    if k > 0 {
      var n := r + Pow256(k) * q;
      assert n == r + 256 * (Pow256(k - 1) * q);
      assert n / 256 == r / 256 + Pow256(k - 1) * q && n % 256 == r % 256;
      LowBytes(r / 256, q, k - 1);
    }
  }

  /** Only the low 64 bits of the length reach the padding, so a wrapped byte counter is enough. */
  lemma LengthWraps(n: nat)
    ensures BeBytes(n % TWO_64 * 8 % TWO_64, 8) == BeBytes(8 * n, 8)
  {
    assert Pow256(2) == 0x1_0000;
    assert Pow256(4) == 0x1_0000 * Pow256(2);
    assert Pow256(6) == 0x1_0000 * Pow256(4);
    assert Pow256(8) == TWO_64;
    var r := n % TWO_64 * 8;
    assert 8 * n == r + TWO_64 * (8 * (n / TWO_64));
    LowBytes(r, 8 * (n / TWO_64), 8);
    LowBytes(r % TWO_64, r / TWO_64, 8);
  }

  // ---------------------------------------------------------------------------
  // The streaming state
  // ---------------------------------------------------------------------------

  /** The first half of `Sha256::compress`: the schedule, filled in place. */
  method Expand(block: Block) returns (w: array<bv32>)
    ensures fresh(w) && w.Length == 64
    ensures forall j :: 0 <= j < 64 ==> w[j] == Schedule(block, j)
  {
    hide Add, SmallSigma0, SmallSigma1, FromBe;
    w := new bv32[64];
    for i := 0 to 16
      invariant forall j :: 0 <= j < i ==> w[j] == Schedule(block, j)
    {
      w[i] := FromBe(block[i * 4], block[i * 4 + 1], block[i * 4 + 2], block[i * 4 + 3]);
    }
    for i := 16 to 64
      invariant forall j :: 0 <= j < i ==> w[j] == Schedule(block, j)
    {
      w[i] := Add(Add(Add(SmallSigma1(w[i - 2]), w[i - 7]), SmallSigma0(w[i - 15])), w[i - 16]);
    }
  }

  /** `Sha256::compress`: the eight variables are overwritten round by round. */
  method Compress(hs: Chaining, block: Block) returns (r: Chaining)
    ensures r == Compressed(hs, block)
  {
    hide Add, Ch, Maj, BigSigma0, BigSigma1, Schedule, RoundConstant;
    var w := Expand(block);
    var a, b, c, d := hs[0], hs[1], hs[2], hs[3];
    var e, f, g, h := hs[4], hs[5], hs[6], hs[7];
    ghost var start := Vars(a, b, c, d, e, f, g, h);
    for i := 0 to 64
      invariant forall j :: 0 <= j < 64 ==> w[j] == Schedule(block, j)
      invariant Vars(a, b, c, d, e, f, g, h) == Rounds(start, block, i)
    {
      var t1 := Add(Add(Add(Add(h, BigSigma1(e)), Ch(e, f, g)), RoundConstant(i)), w[i]);
      var t2 := Add(BigSigma0(a), Maj(a, b, c));
      h := g;
      g := f;
      f := e;
      e := Add(d, t1);
      d := c;
      c := b;
      b := a;
      a := Add(t1, t2);
    }
    r := [Add(hs[0], a), Add(hs[1], b), Add(hs[2], c), Add(hs[3], d),
          Add(hs[4], e), Add(hs[5], f), Add(hs[6], g), Add(hs[7], h)];
  }

  /** h covers all of msg except its last |pending| bytes, which are still buffered. */
  ghost predicate Absorbed(h: Chaining, pending: seq<bv8>, msg: seq<bv8>) {
    && |pending| <= |msg|
    && pending == msg[|msg| - |pending|..]
    && (|msg| - |pending|) % 64 == 0
    && h == Absorb(H_INIT, msg[..|msg| - |pending|])
  }

  lemma Feed(h: Chaining, pending: seq<bv8>, msg: seq<bv8>, d: seq<bv8>)
    requires Absorbed(h, pending, msg)
    ensures Absorbed(h, pending + d, msg + d)
  {
    hide Absorb;
    assert (msg + d)[..|msg| - |pending|] == msg[..|msg| - |pending|];
    assert (msg + d)[|msg| - |pending|..] == pending + d;
  }

  lemma Squeeze(h: Chaining, pending: seq<bv8>, rest: seq<bv8>, msg: seq<bv8>)
    requires Absorbed(h, pending + rest, msg) && |pending| == 64
    ensures Absorbed(Compressed(h, pending), rest, msg)
  {
    hide Absorb, Compressed;
    var k := |msg| - |pending + rest|;
    AbsorbBlock(H_INIT, msg[..k], pending);
    assert msg == msg[..k] + (pending + rest);
    assert msg[..k] + pending == msg[..k + 64];
    assert msg[k + 64..] == rest;
  }

  lemma PaddingShort(len: nat, tail: nat)
    requires tail < 56 && len % 64 == tail
    ensures Padding(len) == [0x80] + (Zeros(55 - tail) + BeBytes(8 * len, 8))
  {
    hide BeBytes;
    assert ZeroBytes(len) == 55 - tail;
  }

  lemma PaddingLong(len: nat, tail: nat)
    requires 56 <= tail < 64 && len % 64 == tail
    ensures Padding(len) == [0x80] + (Zeros(63 - tail) + (Zeros(56) + BeBytes(8 * len, 8)))
  {
    hide BeBytes;
    assert ZeroBytes(len) == 119 - tail;
    assert Zeros(119 - tail) == Zeros(63 - tail) + Zeros(56);
  }

  /** Writing the 0x80 byte moves the first byte of the padding into the buffered tail. */
  lemma PadTail(h: Chaining, tail: seq<bv8>, msg: seq<bv8>, rest: seq<bv8>)
    requires Absorbed(h, tail, msg) && Padding(|msg|) == [0x80] + rest
    ensures Absorbed(h, (tail + [0x80]) + rest, msg + Padding(|msg|))
  {
    hide Padding, Absorbed;
    Feed(h, tail, msg, Padding(|msg|));
    assert tail + ([0x80] + rest) == (tail + [0x80]) + rest;
  }

  lemma TailLength(h: Chaining, tail: seq<bv8>, msg: seq<bv8>)
    requires Absorbed(h, tail, msg) && |tail| < 64
    ensures |msg| % 64 == |tail|
  {
  }

  class Hasher {
    var h: Chaining
    var buf: array<bv8>
    var bufLen: nat
    var totalBytes: nat        // a u64 counter, kept modulo 2^64
    ghost var msg: seq<bv8>    // everything fed in so far

    ghost predicate Valid()
      reads this, buf
    {
      && buf.Length == 64
      && bufLen < 64
      && Absorbed(h, buf[..bufLen], msg)
      && totalBytes == |msg| % TWO_64
    }

    constructor ()
      ensures Valid() && fresh(buf) && msg == []
    {
      h := H_INIT;
      buf := new bv8[64](_ => 0);
      bufLen := 0;
      totalBytes := 0;
      msg := [];
    }

    /** `Sha256::update` */
    method Update(data: seq<bv8>)
      requires Valid()
      modifies this, buf
      ensures Valid() && buf == old(buf)
      ensures msg == old(msg) + data
    {
      hide Absorbed;
      totalBytes := (totalBytes + |data|) % TWO_64;
      var rest := data;
      if bufLen > 0 {
        rest := FillBuffer(data);
      }
      if bufLen == 0 {
        Feed(h, [], msg, rest);
        assert [] + rest == rest && buf[..0] == [];
        msg := msg + rest;
        h, rest := AbsorbFullBlocks(msg, h, rest);
        if |rest| > 0 {
          CopyIn(0, rest);
          bufLen := |rest|;
        }
        assert buf[..bufLen] == rest;
      }
      assert msg == old(msg) + data;
      assert totalBytes == |msg| % TWO_64;
    }

    /** The first part of `update`: top up a partly filled buffer. */
    method FillBuffer(data: seq<bv8>) returns (rest: seq<bv8>)
      requires buf.Length == 64 && 0 < bufLen < 64 && Absorbed(h, buf[..bufLen], msg)
      modifies this, buf
      ensures buf == old(buf) && totalBytes == old(totalBytes)
      ensures bufLen < 64 && Absorbed(h, buf[..bufLen], msg)
      ensures msg + rest == old(msg) + data && (bufLen > 0 ==> rest == [])
    {
      hide Absorbed, Compressed;
      var room := 64 - bufLen;
      var take := if room < |data| then room else |data|;
      ghost var pending := buf[..bufLen];
      Feed(h, pending, msg, data[..take]);
      CopyIn(bufLen, data[..take]);
      bufLen := bufLen + take;
      rest := data[take..];
      msg := msg + data[..take];
      assert buf[..bufLen] == pending + data[..take];
      if bufLen == 64 {
        assert buf[..] + [] == buf[..bufLen];
        Squeeze(h, buf[..], [], msg);
        h := Compress(h, buf[..]);
        bufLen := 0;
        assert buf[..0] == [];
      }
      assert msg + rest == old(msg) + data;
    }

    /** Copies a slice into the block buffer at a given offset. */
    method CopyIn(at: nat, src: seq<bv8>)
      requires buf.Length == 64 && at + |src| <= 64
      modifies buf
      ensures buf[..at] == old(buf[..at])
      ensures buf[at..at + |src|] == src
      ensures buf[at + |src|..] == old(buf[at + |src|..])
    {
      for i := 0 to |src|
        invariant buf[..at] == old(buf[..at])
        invariant buf[at..at + i] == src[..i]
        invariant buf[at + |src|..] == old(buf[at + |src|..])
      {
        buf[at + i] := src[i];
        assert buf[at..at + i + 1] == buf[at..at + i] + [src[i]];
      }
    }

    /** The middle loop of `update`: whole blocks straight from the input. */
    static method AbsorbFullBlocks(ghost whole: seq<bv8>, h0: Chaining, data: seq<bv8>)
      returns (r: Chaining, rest: seq<bv8>)
      requires Absorbed(h0, data, whole)
      ensures |rest| < 64 && Absorbed(r, rest, whole)
    {
      hide Absorbed;
      r, rest := h0, data;
      while |rest| >= 64
        invariant Absorbed(r, rest, whole)
      {
        assert rest == rest[..64] + rest[64..];
        Squeeze(r, rest[..64], rest[64..], whole);
        r := Compress(r, rest[..64]);
        rest := rest[64..];
      }
    }

    /** `Sha256::finalize`: pads in the block buffer, with a second block when the length does not fit. */
    method Finalize() returns (out: seq<bv8>)
      requires Valid()
      modifies this, buf
      ensures out == Hash(old(msg))
    {
      hide Absorbed, Padding, BeBytes;
      var bitLen := totalBytes * 8 % TWO_64;
      LengthWraps(|msg|);
      ghost var padded := msg + Padding(|msg|);
      ghost var tail := buf[..bufLen];
      TailLength(h, tail, msg);
      buf[bufLen] := 0x80;
      bufLen := bufLen + 1;
      assert buf[..bufLen] == tail + [0x80];
      if bufLen <= 56 {
        PaddingShort(|msg|, |tail|);
        PadTail(h, tail, msg, Zeros(55 - |tail|) + BeBytes(bitLen, 8));
      } else {
        PaddingLong(|msg|, |tail|);
        PadTail(h, tail, msg, Zeros(63 - |tail|) + (Zeros(56) + BeBytes(bitLen, 8)));
        Spill(Zeros(56) + BeBytes(bitLen, 8), padded);
      }
      LastBlock(BeBytes(bitLen, 8), padded);
      WholeAbsorbed(h, padded);
      out := Digest();
    }

    /** The branch of `finalize` for a buffer without room for the length. */
    method Spill(ghost next: seq<bv8>, ghost padded: seq<bv8>)
      requires buf.Length == 64 && 56 < bufLen <= 64
      requires Absorbed(h, buf[..bufLen] + (Zeros(64 - bufLen) + next), padded)
      modifies this, buf
      ensures buf == old(buf) && bufLen == 0 && msg == old(msg) && totalBytes == old(totalBytes)
      ensures Absorbed(h, buf[..bufLen] + next, padded)
    {
      hide Absorbed;
      ghost var filled := buf[..bufLen];
      FillZero(bufLen, 64);
      assert filled + (Zeros(64 - bufLen) + next) == buf[..] + next;
      Squeeze(h, buf[..], next, padded);
      h := Compress(h, buf[..]);
      bufLen := 0;
      assert buf[..0] + next == next;
    }

    /** The end of `finalize`: zeros, the length, and the last compression. */
    method LastBlock(len: seq<bv8>, ghost padded: seq<bv8>)
      requires buf.Length == 64 && bufLen <= 56 && |len| == 8
      requires Absorbed(h, buf[..bufLen] + (Zeros(56 - bufLen) + len), padded)
      modifies this, buf
      ensures Absorbed(h, [], padded) && msg == old(msg)
    {
      hide Absorbed;
      ghost var block := buf[..bufLen] + (Zeros(56 - bufLen) + len);
      FillZero(bufLen, 56);
      CopyIn(56, len);
      assert buf[..] + [] == block;
      Squeeze(h, buf[..], [], padded);
      h := Compress(h, buf[..]);
    }

    /** The output loop of `finalize`. */
    method Digest() returns (out: seq<bv8>)
      ensures out == DigestOf(h)
    {
      out := [];
      for i := 0 to 8
        invariant out == DigestPrefix(h, i)
      {
        out := out + ToBe(h[i]);
      }
      DigestPrefixWhole(h);
    }

    method FillZero(lo: nat, hi: nat)
      requires buf.Length == 64 && lo <= hi <= 64
      modifies buf
      ensures buf[..lo] == old(buf[..lo])
      ensures buf[lo..hi] == Zeros(hi - lo)
      ensures buf[hi..] == old(buf[hi..])
    {
      for i := lo to hi
        invariant buf[..lo] == old(buf[..lo])
        invariant forall j :: lo <= j < i ==> buf[j] == 0
        invariant buf[hi..] == old(buf[hi..])
      {
        buf[i] := 0;
      }
    }
  }

  lemma WholeAbsorbed(h: Chaining, msg: seq<bv8>)
    requires Absorbed(h, [], msg)
    ensures |msg| % 64 == 0 && h == Absorb(H_INIT, msg)
  {
    assert msg[..|msg|] == msg;
  }

  ghost function DigestPrefix(h: Chaining, i: nat): seq<bv8>
    requires i <= 8
  {
    if i == 0 then [] else DigestPrefix(h, i - 1) + ToBe(h[i - 1])
  }

  lemma DigestPrefixWhole(h: Chaining)
    ensures DigestPrefix(h, 8) == DigestOf(h)
  {
    hide ToBe;
    assert DigestPrefix(h, 1) == [] + ToBe(h[0]) == ToBe(h[0]);
    assert DigestPrefix(h, 2) == ToBe(h[0]) + ToBe(h[1]);
    assert DigestPrefix(h, 4) == DigestPrefix(h, 2) + ToBe(h[2]) + ToBe(h[3]);
    assert DigestPrefix(h, 6) == DigestPrefix(h, 4) + ToBe(h[4]) + ToBe(h[5]);
  }

  function Joined(chunks: seq<seq<bv8>>): seq<bv8> {
    if chunks == [] then [] else chunks[0] + Joined(chunks[1..])
  }

  lemma {:induction false} JoinedSnoc(chunks: seq<seq<bv8>>, c: seq<bv8>)
    ensures Joined(chunks + [c]) == Joined(chunks) + c
  {
    if chunks != [] {
      assert (chunks + [c])[1..] == chunks[1..] + [c];
      JoinedSnoc(chunks[1..], c);
    } else {
      assert (chunks + [c])[1..] == [];
    }
  }

  /** Any split of a message into `update` calls gives the hash of the whole message. */
  method HashChunks(chunks: seq<seq<bv8>>) returns (out: seq<bv8>)
    ensures out == Hash(Joined(chunks))
  {
    hide Absorbed, Hash;
    var s := new Hasher();
    for i := 0 to |chunks|
      invariant s.Valid() && fresh(s) && fresh(s.buf)
      invariant s.msg == Joined(chunks[..i])
    {
      s.Update(chunks[i]);
      JoinedSnoc(chunks[..i], chunks[i]);
      assert chunks[..i + 1] == chunks[..i] + [chunks[i]];
    }
    assert chunks[..|chunks|] == chunks;
    out := s.Finalize();
  }
}
