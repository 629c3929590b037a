/** sha512_transform against sections 4.1.3 and 6.4.2 of FIPS 180-2. */
module Sha512Transform {
  import opened HashStream

  datatype Words = Words(a: bv64, b: bv64, c: bv64, d: bv64, e: bv64, f: bv64, g: bv64, h: bv64)

  function Add(x: bv64, y: bv64): bv64 { x + y }

  // ------------------------------------------------------------------
  // FIPS 180-2
  // ------------------------------------------------------------------

  function Ch(x: bv64, y: bv64, z: bv64): bv64 { (x & y) ^ (!x & z) }
  function Maj(x: bv64, y: bv64, z: bv64): bv64 { (x & y) ^ (x & z) ^ (y & z) }

  function BigSigma0(x: bv64): bv64 { x.RotateRight(28) ^ x.RotateRight(34) ^ x.RotateRight(39) }
  function BigSigma1(x: bv64): bv64 { x.RotateRight(14) ^ x.RotateRight(18) ^ x.RotateRight(41) }
  function Sigma0(x: bv64): bv64 { x.RotateRight(1) ^ x.RotateRight(8) ^ (x >> 7) }
  function Sigma1(x: bv64): bv64 { x.RotateRight(19) ^ x.RotateRight(61) ^ (x >> 6) }

  /** The constants, section 4.2.3. */
  function K(t: nat): bv64
    requires t < 80
  {
    Row(t / 8)[t % 8]
  }

  function Row(j: nat): (r: seq<bv64>)
    ensures |r| == 8
  {
    if j == 0 then
      [0x428a2f98d728ae22, 0x7137449123ef65cd, 0xb5c0fbcfec4d3b2f, 0xe9b5dba58189dbbc,
       0x3956c25bf348b538, 0x59f111f1b605d019, 0x923f82a4af194f9b, 0xab1c5ed5da6d8118]
    else if j == 1 then
      [0xd807aa98a3030242, 0x12835b0145706fbe, 0x243185be4ee4b28c, 0x550c7dc3d5ffb4e2,
       0x72be5d74f27b896f, 0x80deb1fe3b1696b1, 0x9bdc06a725c71235, 0xc19bf174cf692694]
    else if j == 2 then
      [0xe49b69c19ef14ad2, 0xefbe4786384f25e3, 0x0fc19dc68b8cd5b5, 0x240ca1cc77ac9c65,
       0x2de92c6f592b0275, 0x4a7484aa6ea6e483, 0x5cb0a9dcbd41fbd4, 0x76f988da831153b5]
    else if j == 3 then
      [0x983e5152ee66dfab, 0xa831c66d2db43210, 0xb00327c898fb213f, 0xbf597fc7beef0ee4,
       0xc6e00bf33da88fc2, 0xd5a79147930aa725, 0x06ca6351e003826f, 0x142929670a0e6e70]
    else if j == 4 then
      [0x27b70a8546d22ffc, 0x2e1b21385c26c926, 0x4d2c6dfc5ac42aed, 0x53380d139d95b3df,
       0x650a73548baf63de, 0x766a0abb3c77b2a8, 0x81c2c92e47edaee6, 0x92722c851482353b]
    else if j == 5 then
      [0xa2bfe8a14cf10364, 0xa81a664bbc423001, 0xc24b8b70d0f89791, 0xc76c51a30654be30,
       0xd192e819d6ef5218, 0xd69906245565a910, 0xf40e35855771202a, 0x106aa07032bbd1b8]
    else if j == 6 then
      [0x19a4c116b8d2d0c8, 0x1e376c085141ab53, 0x2748774cdf8eeb99, 0x34b0bcb5e19b48a8,
       0x391c0cb3c5c95a63, 0x4ed8aa4ae3418acb, 0x5b9cca4f7763e373, 0x682e6ff3d6b2b8a3]
    else if j == 7 then
      [0x748f82ee5defb2fc, 0x78a5636f43172f60, 0x84c87814a1f0ab72, 0x8cc702081a6439ec,
       0x90befffa23631e28, 0xa4506cebde82bde9, 0xbef9a3f7b2c67915, 0xc67178f2e372532b]
    else if j == 8 then
      [0xca273eceea26619c, 0xd186b8c721c0c207, 0xeada7dd6cde0eb1e, 0xf57d4f7fee6ed178,
       0x06f067aa72176fba, 0x0a637dc5a2c898a6, 0x113f9804bef90dae, 0x1b710b35131c471b]
    else
      [0x28db77f523047d84, 0x32caab7b40c72493, 0x3c9ebe0a15c9bebc, 0x431d67c49c100d4c,
       0x4cc5d4becb3e42b6, 0x597f299cfc657e2a, 0x5fcb6fab3ad6faec, 0x6c44198c4a475817]
  }

  /** A word, high-order byte first. */
  function Be64(b: Bytes, i: nat): bv64
    requires 8 * i + 8 <= |b|
  {
    Together(b[8 * i], b[8 * i + 1], b[8 * i + 2], b[8 * i + 3], b[8 * i + 4], b[8 * i + 5], b[8 * i + 6], b[8 * i + 7])
  }

  function Together(a: bv8, b: bv8, c: bv8, d: bv8, e: bv8, f: bv8, g: bv8, h: bv8): bv64 {
    ((a as bv64) << 56) | ((b as bv64) << 48) | ((c as bv64) << 40) | ((d as bv64) << 32)
    | ((e as bv64) << 24) | ((f as bv64) << 16) | ((g as bv64) << 8) | (h as bv64)
  }

  /** The message schedule of eighty words. */
  function W(block: Bytes, t: nat): bv64
    requires |block| == 128
  {
    if t < 16 then Be64(block, t)
    else Add(Add(Add(Sigma1(W(block, t - 2)), W(block, t - 7)), Sigma0(W(block, t - 15))), W(block, t - 16))
  }

  function Step(r: Words, k: bv64, w: bv64): Words {
    var t1 := Add(Add(Add(Add(r.h, BigSigma1(r.e)), Ch(r.e, r.f, r.g)), k), w);
    var t2 := Add(BigSigma0(r.a), Maj(r.a, r.b, r.c));
    Words(Add(t1, t2), r.a, r.b, r.c, Add(r.d, t1), r.e, r.f, r.g)
  }

  function After(r: Words, block: Bytes, n: nat): Words
    requires |block| == 128 && n <= 80
    decreases n
  {
    if n == 0 then r else Step(After(r, block, n - 1), K(n - 1), W(block, n - 1))
  }

  function Sum(s: Words, r: Words): Words {
    Words(Add(s.a, r.a), Add(s.b, r.b), Add(s.c, r.c), Add(s.d, r.d),
          Add(s.e, r.e), Add(s.f, r.f), Add(s.g, r.g), Add(s.h, r.h))
  }

  function Compress(s: Words, block: Bytes): Words {
    if |block| != 128 then s else Sum(s, After(s, block, 80))
  }

  // ------------------------------------------------------------------
  // The code
  // ------------------------------------------------------------------

  /** The functions Ch and Maj of sha512.c. */
  function Choice(x: bv64, y: bv64, z: bv64): bv64 { z ^ (x & (y ^ z)) }
  function Majority(x: bv64, y: bv64, z: bv64): bv64 { (x & y) | (z & (x | y)) }

  /** The macros e0, e1, s0 and s1, rotations being made of shifts. */
  function E0(x: bv64): bv64 { ((x >> 28) | (x << 36)) ^ ((x >> 34) | (x << 30)) ^ ((x >> 39) | (x << 25)) }
  function E1(x: bv64): bv64 { ((x >> 14) | (x << 50)) ^ ((x >> 18) | (x << 46)) ^ ((x >> 41) | (x << 23)) }
  function S0(x: bv64): bv64 { ((x >> 1) | (x << 63)) ^ ((x >> 8) | (x << 56)) ^ (x >> 7) }
  function S1(x: bv64): bv64 { ((x >> 19) | (x << 45)) ^ ((x >> 61) | (x << 3)) ^ (x >> 6) }

  lemma E0Is(x: bv64)
    ensures E0(x) == BigSigma0(x)
  {}

  lemma E1Is(x: bv64)
    ensures E1(x) == BigSigma1(x)
  {}

  lemma S0Is(x: bv64)
    ensures S0(x) == Sigma0(x)
  {}

  lemma S1Is(x: bv64)
    ensures S1(x) == Sigma1(x)
  {}

  lemma ChoiceBits(x: bv64, y: bv64, z: bv64)
    ensures z ^ (x & (y ^ z)) == (x & y) ^ (!x & z)
  {}

  lemma ChoiceIs(x: bv64, y: bv64, z: bv64)
    ensures Choice(x, y, z) == Ch(x, y, z)
  {
    ChoiceBits(x, y, z);
  }

  lemma MajorityBits(x: bv64, y: bv64, z: bv64)
    ensures (x & y) | (z & (x | y)) == (x & y) ^ (x & z) ^ (y & z)
  {}

  lemma MajorityIs(x: bv64, y: bv64, z: bv64)
    ensures Majority(x, y, z) == Maj(x, y, z)
  {
    MajorityBits(x, y, z);
  }

  /** One step of LOAD_OP. */
  function Joined(t: bv64, b: bv8): bv64 {
    (t << 8) | (b as bv64)
  }

  lemma JoinedAll(a: bv8, b: bv8, c: bv8, d: bv8, e: bv8, f: bv8, g: bv8, h: bv8)
    ensures Joined(Joined(Joined(Joined(Joined(Joined(Joined(a as bv64, b), c), d), e), f), g), h)
         == Together(a, b, c, d, e, f, g, h)
  {}

  /** LOAD_OP */
  method LoadWord(input: Bytes, i: nat) returns (t1: bv64)
    requires |input| == 128 && i < 16
    ensures t1 == Be64(input, i)
  {
    hide Joined, Together;
    JoinedAll(input[8 * i], input[8 * i + 1], input[8 * i + 2], input[8 * i + 3],
              input[8 * i + 4], input[8 * i + 5], input[8 * i + 6], input[8 * i + 7]);
    t1 := input[8 * i] as bv64;
    t1 := Joined(t1, input[8 * i + 1]);
    t1 := Joined(t1, input[8 * i + 2]);
    t1 := Joined(t1, input[8 * i + 3]);
    t1 := Joined(t1, input[8 * i + 4]);
    t1 := Joined(t1, input[8 * i + 5]);
    t1 := Joined(t1, input[8 * i + 6]);
    t1 := Joined(t1, input[8 * i + 7]);
  }

  /** The first n words of the schedule are in place. */
  ghost predicate Scheduled(w: seq<bv64>, block: Bytes, n: nat) {
    |block| == 128 && n <= |w| && forall j :: 0 <= j < n ==> w[j] == W(block, j)
  }

  /** LOAD_OP sixteen times, then BLEND_OP for the rest. */
  method Schedule(input: Bytes) returns (w: array<bv64>)
    requires |input| == 128
    ensures fresh(w) && w.Length == 80 && Scheduled(w[..], input, 80)
  {
    hide Be64, Add, Sigma0, Sigma1, S0, S1;
    w := new bv64[80](_ => 0);
    var i: nat := 0;
    while i < 16
      invariant i <= 16 && forall j :: 0 <= j < i ==> w[j] == W(input, j)
    {
      w[i] := LoadWord(input, i);
      i := i + 1;
    }
    while i < 80
      invariant i <= 80 && forall j :: 0 <= j < i ==> w[j] == W(input, j)
    {
      S1Is(w[i - 2]);
      S0Is(w[i - 15]);
      w[i] := Add(Add(Add(S1(w[i - 2]), w[i - 7]), S0(w[i - 15])), w[i - 16]);
      i := i + 1;
    }
  }

  /** One of the eight lines of the loop: the new values of its fourth and last registers. */
  method RoundAt(w: array<bv64>, ghost s: Words, ghost block: Bytes, i: nat,
                 a: bv64, b: bv64, c: bv64, d: bv64, e: bv64, f: bv64, g: bv64, h: bv64)
    returns (d': bv64, h': bv64)
    requires w.Length == 80 && Scheduled(w[..], block, 80) && i < 80
    requires Words(a, b, c, d, e, f, g, h) == After(s, block, i)
    ensures Words(h', a, b, c, d', e, f, g) == After(s, block, i + 1)
  {
    hide W, K, Ch, Maj, Choice, Majority, BigSigma0, BigSigma1, E0, E1, Add;
    E0Is(a);
    E1Is(e);
    ChoiceIs(e, f, g);
    MajorityIs(a, b, c);
    assert w[..][i] == w[i] == W(block, i);
    var t1 := Add(Add(Add(Add(h, E1(e)), Choice(e, f, g)), K(i)), w[i]);
    var t2 := Add(E0(a), Majority(a, b, c));
    d' := Add(d, t1);
    h' := Add(t1, t2);
  }

  /** sha512_transform: eight rounds bring the register names back to where they were. */
  method Transform(s: Words, block: Bytes) returns (r: Words)
    requires |block| == 128
    ensures r == Compress(s, block)
  {
    hide After, Scheduled, Sum;
    var w := Schedule(block);
    var a, b, c, d, e, f, g, h := s.a, s.b, s.c, s.d, s.e, s.f, s.g, s.h;
    AtStart(s, block);
    var i: nat := 0;
    while i < 80
      invariant i <= 80 && i % 8 == 0 && w.Length == 80 && Scheduled(w[..], block, 80)
      invariant Words(a, b, c, d, e, f, g, h) == After(s, block, i)
    {
      d, h := RoundAt(w, s, block, i, a, b, c, d, e, f, g, h);
      c, g := RoundAt(w, s, block, i + 1, h, a, b, c, d, e, f, g);
      b, f := RoundAt(w, s, block, i + 2, g, h, a, b, c, d, e, f);
      a, e := RoundAt(w, s, block, i + 3, f, g, h, a, b, c, d, e);
      h, d := RoundAt(w, s, block, i + 4, e, f, g, h, a, b, c, d);
      g, c := RoundAt(w, s, block, i + 5, d, e, f, g, h, a, b, c);
      f, b := RoundAt(w, s, block, i + 6, c, d, e, f, g, h, a, b);
      e, a := RoundAt(w, s, block, i + 7, b, c, d, e, f, g, h, a);
      i := i + 8;
    }
    r := Sum(s, Words(a, b, c, d, e, f, g, h));
  }

  lemma AtStart(s: Words, block: Bytes)
    requires |block| == 128
    ensures After(s, block, 0) == s
  {}
}
