/** The MD5 digest of "abc", as the test suite in appendix A.5 of RFC 1321 gives it, step by step. */
module Md5Example {
  import opened HashStream
  import opened Md5Transform
  import opened Md5

  /** "abc", padded to one block. */
  predicate Abc(block: Bytes) {
    && |block| == 64 && block[0] == 0x61 && block[1] == 0x62 && block[2] == 0x63 && block[3] == 0x80
    && (forall i :: 4 <= i < 64 && i != 56 ==> block[i] == 0) && block[56] == 24
  }

  /** Its words. */
  function WordAt(k: nat): bv32 {
    if k == 0 then 0x80636261 else if k == 14 then 24 else 0
  }

  lemma WordsAre(block: Bytes, k: nat)
    requires |block| == 64 && Abc(block) && k < 16
    ensures Le(block, k) == WordAt(k)
  {}

  lemma Pass(block: Bytes, n: nat, r: Words, k: nat, x: bv32, t: bv32, s: nat)
    requires |block| == 64 && Abc(block) && Line(n, k, t, s) && x == WordAt(k)
    requires After(INITIAL, block, n) == r
    ensures s <= 32
    ensures After(INITIAL, block, n + 1) == Words(r.d, Operation(r.a, r.b, Aux(n, r.b, r.c, r.d), x, t, s), r.b, r.c)
  {
    hide Abc, Le;
    WordsAre(block, k);
  }

  lemma Passes0(block: Bytes)
    requires |block| == 64 && Abc(block)
    ensures After(INITIAL, block, 8) == Words(0xc73741ef, 0x928d99f6, 0x207dc67b, 0x8bac3051)
  {
    hide Abc, Le, Line;
    Lines0();
    Pass(block, 0, Words(0x67452301, 0xefcdab89, 0x98badcfe, 0x10325476), 0, 0x80636261, 0xd76aa478, 7);
    Pass(block, 1, Words(0x10325476, 0xd6d117b4, 0xefcdab89, 0x98badcfe), 1, 0x00000000, 0xe8c7b756, 12);
    Pass(block, 2, Words(0x98badcfe, 0x344a8432, 0xd6d117b4, 0xefcdab89), 2, 0x00000000, 0x242070db, 17);
    Pass(block, 3, Words(0xefcdab89, 0x2f6fbd72, 0x344a8432, 0xd6d117b4), 3, 0x00000000, 0xc1bdceee, 22);
    Pass(block, 4, Words(0xd6d117b4, 0x7ad956f2, 0x2f6fbd72, 0x344a8432), 4, 0x00000000, 0xf57c0faf, 7);
    Pass(block, 5, Words(0x344a8432, 0xc73741ef, 0x7ad956f2, 0x2f6fbd72), 5, 0x00000000, 0x4787c62a, 12);
    Pass(block, 6, Words(0x2f6fbd72, 0x8bac3051, 0xc73741ef, 0x7ad956f2), 6, 0x00000000, 0xa8304613, 17);
    Pass(block, 7, Words(0x7ad956f2, 0x207dc67b, 0x8bac3051, 0xc73741ef), 7, 0x00000000, 0xfd469501, 22);
  }

  lemma Passes8(block: Bytes)
    requires |block| == 64 && Abc(block)
    ensures After(INITIAL, block, 16) == Words(0xdda9b9a6, 0x72aff2e0, 0xe396856b, 0xa1051895)
  {
    hide Abc, Le, Line, After;
    Lines8();
    Passes0(block);
    Pass(block, 8, Words(0xc73741ef, 0x928d99f6, 0x207dc67b, 0x8bac3051), 8, 0x00000000, 0x698098d8, 7);
    Pass(block, 9, Words(0x8bac3051, 0x854b3712, 0x928d99f6, 0x207dc67b), 9, 0x00000000, 0x8b44f7af, 12);
    Pass(block, 10, Words(0x207dc67b, 0x74e2f284, 0x854b3712, 0x928d99f6), 10, 0x00000000, 0xffff5bb1, 17);
    Pass(block, 11, Words(0x928d99f6, 0x3020401c, 0x74e2f284, 0x854b3712), 11, 0x00000000, 0x895cd7be, 22);
    Pass(block, 12, Words(0x854b3712, 0x5ed49596, 0x3020401c, 0x74e2f284), 12, 0x00000000, 0x6b901122, 7);
    Pass(block, 13, Words(0x74e2f284, 0xdda9b9a6, 0x5ed49596, 0x3020401c), 13, 0x00000000, 0xfd987193, 12);
    Pass(block, 14, Words(0x3020401c, 0xa1051895, 0xdda9b9a6, 0x5ed49596), 14, 0x00000018, 0xa679438e, 17);
    Pass(block, 15, Words(0x5ed49596, 0xe396856b, 0xa1051895, 0xdda9b9a6), 15, 0x00000000, 0x49b40821, 22);
  }

  lemma Passes16(block: Bytes)
    requires |block| == 64 && Abc(block)
    ensures After(INITIAL, block, 24) == Words(0x59a8ffda, 0x47092c07, 0xabfc7920, 0x6d002f1e)
  {
    hide Abc, Le, Line, After;
    Lines16();
    Passes8(block);
    Pass(block, 16, Words(0xdda9b9a6, 0x72aff2e0, 0xe396856b, 0xa1051895), 1, 0x00000000, 0xf61e2562, 5);
    Pass(block, 17, Words(0xa1051895, 0x3e9e9126, 0x72aff2e0, 0xe396856b), 6, 0x00000000, 0xc040b340, 9);
    Pass(block, 18, Words(0xe396856b, 0x4a1d804e, 0x3e9e9126, 0x72aff2e0), 11, 0x00000000, 0x265e5a51, 14);
    Pass(block, 19, Words(0x72aff2e0, 0xe25e1652, 0x4a1d804e, 0x3e9e9126), 0, 0x80636261, 0xe9b6c7aa, 20);
    Pass(block, 20, Words(0x3e9e9126, 0xb5b204e4, 0xe25e1652, 0x4a1d804e), 5, 0x00000000, 0xd62f105d, 5);
    Pass(block, 21, Words(0x4a1d804e, 0x59a8ffda, 0xb5b204e4, 0xe25e1652), 10, 0x00000000, 0x02441453, 9);
    Pass(block, 22, Words(0xe25e1652, 0x6d002f1e, 0x59a8ffda, 0xb5b204e4), 15, 0x00000000, 0xd8a1e681, 14);
    Pass(block, 23, Words(0xb5b204e4, 0xabfc7920, 0x6d002f1e, 0x59a8ffda), 4, 0x00000000, 0xe7d3fbc8, 20);
  }

  lemma Passes24(block: Bytes)
    requires |block| == 64 && Abc(block)
    ensures After(INITIAL, block, 32) == Words(0x790a77fb, 0x726342d3, 0xa62884aa, 0x9f47e4f8)
  {
    hide Abc, Le, Line, After;
    Lines24();
    Passes16(block);
    Pass(block, 24, Words(0x59a8ffda, 0x47092c07, 0xabfc7920, 0x6d002f1e), 9, 0x00000000, 0x21e1cde6, 5);
    Pass(block, 25, Words(0x6d002f1e, 0xb7f268cf, 0x47092c07, 0xabfc7920), 14, 0x00000018, 0xc33707d6, 9);
    Pass(block, 26, Words(0xabfc7920, 0x09388eff, 0xb7f268cf, 0x47092c07), 3, 0x00000000, 0xf4d50d87, 14);
    Pass(block, 27, Words(0x47092c07, 0xfe1623b1, 0x09388eff, 0xb7f268cf), 8, 0x00000000, 0x455a14ed, 20);
    Pass(block, 28, Words(0xb7f268cf, 0x786acb8f, 0xfe1623b1, 0x09388eff), 13, 0x00000000, 0xa9e3e905, 5);
    Pass(block, 29, Words(0x09388eff, 0x790a77fb, 0x786acb8f, 0xfe1623b1), 2, 0x00000000, 0xfcefa3f8, 9);
    Pass(block, 30, Words(0xfe1623b1, 0x9f47e4f8, 0x790a77fb, 0x786acb8f), 7, 0x00000000, 0x676f02d9, 14);
    Pass(block, 31, Words(0x786acb8f, 0xa62884aa, 0x9f47e4f8, 0x790a77fb), 12, 0x00000000, 0x8d2a4c8a, 20);
  }

  lemma Passes32(block: Bytes)
    requires |block| == 64 && Abc(block)
    ensures After(INITIAL, block, 40) == Words(0x21b117b9, 0x5a2f5ea5, 0x3575227e, 0x6e7429d5)
  {
    hide Abc, Le, Line, After;
    Lines32();
    Passes24(block);
    Pass(block, 32, Words(0x790a77fb, 0x726342d3, 0xa62884aa, 0x9f47e4f8), 5, 0x00000000, 0xfffa3942, 4);
    Pass(block, 33, Words(0x9f47e4f8, 0xb3707ebf, 0x726342d3, 0xa62884aa), 8, 0x00000000, 0x8771f681, 11);
    Pass(block, 34, Words(0xa62884aa, 0x60127b2e, 0xb3707ebf, 0x726342d3), 11, 0x00000000, 0x6d9d6122, 16);
    Pass(block, 35, Words(0x726342d3, 0x8d212ff5, 0x60127b2e, 0xb3707ebf), 14, 0x00000018, 0xfde5380c, 23);
    Pass(block, 36, Words(0xb3707ebf, 0x3b0875c7, 0x8d212ff5, 0x60127b2e), 1, 0x00000000, 0xa4beea44, 4);
    Pass(block, 37, Words(0x60127b2e, 0x21b117b9, 0x3b0875c7, 0x8d212ff5), 4, 0x00000000, 0x4bdecfa9, 11);
    Pass(block, 38, Words(0x8d212ff5, 0x6e7429d5, 0x21b117b9, 0x3b0875c7), 7, 0x00000000, 0xf6bb4b60, 16);
    Pass(block, 39, Words(0x3b0875c7, 0x3575227e, 0x6e7429d5, 0x21b117b9), 10, 0x00000000, 0xbebfbc70, 23);
  }

  lemma Passes40(block: Bytes)
    requires |block| == 64 && Abc(block)
    ensures After(INITIAL, block, 48) == Words(0x7f2e507b, 0x7beb9700, 0x8fae6399, 0x99d9679d)
  {
    hide Abc, Le, Line, After;
    Lines40();
    Passes32(block);
    Pass(block, 40, Words(0x21b117b9, 0x5a2f5ea5, 0x3575227e, 0x6e7429d5), 13, 0x00000000, 0x289b7ec6, 4);
    Pass(block, 41, Words(0x6e7429d5, 0x11de1779, 0x5a2f5ea5, 0x3575227e), 0, 0x80636261, 0xeaa127fa, 11);
    Pass(block, 42, Words(0x3575227e, 0xfadcaa38, 0x11de1779, 0x5a2f5ea5), 3, 0x00000000, 0xd4ef3085, 16);
    Pass(block, 43, Words(0x5a2f5ea5, 0x31c465ca, 0xfadcaa38, 0x11de1779), 6, 0x00000000, 0x04881d05, 23);
    Pass(block, 44, Words(0x11de1779, 0x4c6124f4, 0x31c465ca, 0xfadcaa38), 9, 0x00000000, 0xd9d4d039, 4);
    Pass(block, 45, Words(0xfadcaa38, 0x7f2e507b, 0x4c6124f4, 0x31c465ca), 12, 0x00000000, 0xe6db99e5, 11);
    Pass(block, 46, Words(0x31c465ca, 0x99d9679d, 0x7f2e507b, 0x4c6124f4), 15, 0x00000000, 0x1fa27cf8, 16);
    Pass(block, 47, Words(0x4c6124f4, 0x8fae6399, 0x99d9679d, 0x7f2e507b), 2, 0x00000000, 0xc4ac5665, 23);
  }

  lemma Passes48(block: Bytes)
    requires |block| == 64 && Abc(block)
    ensures After(INITIAL, block, 56) == Words(0x06cc5e8a, 0x3bfa2c27, 0x7d632dd0, 0x5b0d97aa)
  {
    hide Abc, Le, Line, After;
    Lines48();
    Passes40(block);
    Pass(block, 48, Words(0x7f2e507b, 0x7beb9700, 0x8fae6399, 0x99d9679d), 0, 0x80636261, 0xf4292244, 6);
    Pass(block, 49, Words(0x99d9679d, 0x7b201df8, 0x7beb9700, 0x8fae6399), 7, 0x00000000, 0x432aff97, 10);
    Pass(block, 50, Words(0x8fae6399, 0xf4e8e96e, 0x7b201df8, 0x7beb9700), 14, 0x00000018, 0xab9423a7, 15);
    Pass(block, 51, Words(0x7beb9700, 0xb298cefd, 0xf4e8e96e, 0x7b201df8), 5, 0x00000000, 0xfc93a039, 21);
    Pass(block, 52, Words(0x7b201df8, 0x8bf025c4, 0xb298cefd, 0xf4e8e96e), 12, 0x00000000, 0x655b59c3, 6);
    Pass(block, 53, Words(0xf4e8e96e, 0x06cc5e8a, 0x8bf025c4, 0xb298cefd), 3, 0x00000000, 0x8f0ccc92, 10);
    Pass(block, 54, Words(0xb298cefd, 0x5b0d97aa, 0x06cc5e8a, 0x8bf025c4), 10, 0x00000000, 0xffeff47d, 15);
    Pass(block, 55, Words(0x8bf025c4, 0x7d632dd0, 0x5b0d97aa, 0x06cc5e8a), 1, 0x00000000, 0x85845dd1, 21);
  }

  lemma Passes56(block: Bytes)
    requires |block| == 64 && Abc(block)
    ensures After(INITIAL, block, 64) == Words(0x310ade8f, 0xc08226b3, 0xe484b9d8, 0x624d8cb2)
  {
    hide Abc, Le, Line, After;
    Lines56();
    Passes48(block);
    Pass(block, 56, Words(0x06cc5e8a, 0x3bfa2c27, 0x7d632dd0, 0x5b0d97aa), 8, 0x00000000, 0x6fa87e4f, 6);
    Pass(block, 57, Words(0x5b0d97aa, 0x7f81cc35, 0x3bfa2c27, 0x7d632dd0), 15, 0x00000000, 0xfe2ce6e0, 10);
    Pass(block, 58, Words(0x7d632dd0, 0x094454ab, 0x7f81cc35, 0x3bfa2c27), 6, 0x00000000, 0xa3014314, 15);
    Pass(block, 59, Words(0x3bfa2c27, 0x4f9dbe3f, 0x094454ab, 0x7f81cc35), 13, 0x00000000, 0x4e0811a1, 21);
    Pass(block, 60, Words(0x7f81cc35, 0x7327d604, 0x4f9dbe3f, 0x094454ab), 4, 0x00000000, 0xf7537e82, 6);
    Pass(block, 61, Words(0x094454ab, 0x310ade8f, 0x7327d604, 0x4f9dbe3f), 11, 0x00000000, 0xbd3af235, 10);
    Pass(block, 62, Words(0x4f9dbe3f, 0x624d8cb2, 0x310ade8f, 0x7327d604), 2, 0x00000000, 0x2ad7d2bb, 15);
    Pass(block, 63, Words(0x7327d604, 0xe484b9d8, 0x624d8cb2, 0x310ade8f), 9, 0x00000000, 0xeb86d391, 21);
  }

  lemma LengthIs()
    ensures Le64(24) == [24, 0, 0, 0, 0, 0, 0, 0]
  {}

  lemma Padded()
    ensures |Pad([0x61, 0x62, 0x63])| == 64 && Abc(Pad([0x61, 0x62, 0x63]))
  {
    hide Le64;
    assert PadZeros(3) == 52;
    assert Le64(24) == [24, 0, 0, 0, 0, 0, 0, 0] by { LengthIs(); }
  }

  lemma OneBlock(block: Bytes)
    requires |block| == 64
    ensures Absorb(Compress, 64, INITIAL, block) == Compress(INITIAL, block)
  {
    assert block[..64] == block && block[64..] == [];
  }

  lemma AbcDigest()
    ensures Hash([0x61, 0x62, 0x63]) == [
      0x90, 0x01, 0x50, 0x98, 0x3c, 0xd2, 0x4f, 0xb0, 0xd6, 0x96, 0x3f, 0x7d, 0x28, 0xe1, 0x7f, 0x72]
  {
    hide Pad, Abc, After;
    var block := Pad([0x61, 0x62, 0x63]);
    Padded();
    OneBlock(block);
    Passes56(block);
    assert Compress(INITIAL, block) == Words(0x98500190, 0xb04fd23c, 0x7d3f96d6, 0x727fe128);
  }
}
