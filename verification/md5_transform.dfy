/** md5_transform against section 3.4 of RFC 1321. */
module Md5Transform {
  import opened HashStream

  datatype Words = Words(a: bv32, b: bv32, c: bv32, d: bv32)

  function Add(x: bv32, y: bv32): bv32 { x + y }

  function Rotl(x: bv32, n: nat): bv32
    requires n <= 32
  {
    (x << n) | (x >> (32 - n))
  }

  // ------------------------------------------------------------------
  // RFC 1321
  // ------------------------------------------------------------------

  function F(x: bv32, y: bv32, z: bv32): bv32 { (x & y) | (!x & z) }
  function G(x: bv32, y: bv32, z: bv32): bv32 { (x & z) | (y & !z) }
  function H(x: bv32, y: bv32, z: bv32): bv32 { x ^ y ^ z }
  function I(x: bv32, y: bv32, z: bv32): bv32 { y ^ (x | !z) }

  function Aux(i: nat, x: bv32, y: bv32, z: bv32): bv32 {
    if i < 16 then F(x, y, z) else if i < 32 then G(x, y, z) else if i < 48 then H(x, y, z) else I(x, y, z)
  }

  /** Which word of the block step i takes. */
  function Index(i: nat): (k: nat)
    ensures k < 16
  {
    (if i < 16 then i else if i < 32 then 5 * i + 1 else if i < 48 then 3 * i + 5 else 7 * i) % 16
  }

  /** By how much it rotates. */
  function Shift(i: nat): (s: nat)
    ensures s <= 32
  {
    var j := i % 4;
    if i < 16 then (if j == 0 then 7 else if j == 1 then 12 else if j == 2 then 17 else 22)
    else if i < 32 then (if j == 0 then 5 else if j == 1 then 9 else if j == 2 then 14 else 20)
    else if i < 48 then (if j == 0 then 4 else if j == 1 then 11 else if j == 2 then 16 else 23)
    else (if j == 0 then 6 else if j == 1 then 10 else if j == 2 then 15 else 21)
  }

  /** The table of sixty-four constants. */
  function T(i: nat): bv32
    requires i < 64
  {
    Row(i / 8)[i % 8]
  }

  function Row(j: nat): (r: seq<bv32>)
    ensures |r| == 8
  {
    if j == 0 then
      [0xd76aa478, 0xe8c7b756, 0x242070db, 0xc1bdceee, 0xf57c0faf, 0x4787c62a, 0xa8304613, 0xfd469501]
    else if j == 1 then
      [0x698098d8, 0x8b44f7af, 0xffff5bb1, 0x895cd7be, 0x6b901122, 0xfd987193, 0xa679438e, 0x49b40821]
    else if j == 2 then
      [0xf61e2562, 0xc040b340, 0x265e5a51, 0xe9b6c7aa, 0xd62f105d, 0x02441453, 0xd8a1e681, 0xe7d3fbc8]
    else if j == 3 then
      [0x21e1cde6, 0xc33707d6, 0xf4d50d87, 0x455a14ed, 0xa9e3e905, 0xfcefa3f8, 0x676f02d9, 0x8d2a4c8a]
    else if j == 4 then
      [0xfffa3942, 0x8771f681, 0x6d9d6122, 0xfde5380c, 0xa4beea44, 0x4bdecfa9, 0xf6bb4b60, 0xbebfbc70]
    else if j == 5 then
      [0x289b7ec6, 0xeaa127fa, 0xd4ef3085, 0x04881d05, 0xd9d4d039, 0xe6db99e5, 0x1fa27cf8, 0xc4ac5665]
    else if j == 6 then
      [0xf4292244, 0x432aff97, 0xab9423a7, 0xfc93a039, 0x655b59c3, 0x8f0ccc92, 0xffeff47d, 0x85845dd1]
    else
      [0x6fa87e4f, 0xfe2ce6e0, 0xa3014314, 0x4e0811a1, 0xf7537e82, 0xbd3af235, 0x2ad7d2bb, 0xeb86d391]
  }

  /** A word of the block, low-order byte first. */
  function Le(b: Bytes, k: nat): bv32
    requires |b| == 64 && k < 16
  {
    (b[4 * k] as bv32) | ((b[4 * k + 1] as bv32) << 8) | ((b[4 * k + 2] as bv32) << 16) | ((b[4 * k + 3] as bv32) << 24)
  }

  function Operation(a: bv32, b: bv32, f: bv32, x: bv32, t: bv32, s: nat): bv32
    requires s <= 32
  {
    Add(b, Rotl(Add(Add(Add(a, f), x), t), s))
  }

  /** One operation, after which the registers change their roles. */
  function Step(r: Words, block: Bytes, i: nat): Words
    requires |block| == 64 && i < 64
  {
    Words(r.d, Operation(r.a, r.b, Aux(i, r.b, r.c, r.d), Le(block, Index(i)), T(i), Shift(i)), r.b, r.c)
  }

  function After(h: Words, block: Bytes, n: nat): Words
    requires |block| == 64 && n <= 64
    decreases n
  {
    if n == 0 then h else Step(After(h, block, n - 1), block, n - 1)
  }

  function Sum(h: Words, r: Words): Words {
    Words(Add(h.a, r.a), Add(h.b, r.b), Add(h.c, r.c), Add(h.d, r.d))
  }

  function Compress(h: Words, block: Bytes): Words {
    if |block| != 64 then h else Sum(h, After(h, block, 64))
  }

  // ------------------------------------------------------------------
  // The code
  // ------------------------------------------------------------------

  function F1(x: bv32, y: bv32, z: bv32): bv32 { z ^ (x & (y ^ z)) }
  function F2(x: bv32, y: bv32, z: bv32): bv32 { F1(z, x, y) }

  lemma F1Bits(x: bv32, y: bv32, z: bv32)
    ensures z ^ (x & (y ^ z)) == (x & y) | (!x & z)
  {}

  lemma F2Bits(x: bv32, y: bv32, z: bv32)
    ensures y ^ (z & (x ^ y)) == (x & z) | (y & !z)
  {}

  lemma F1Is(x: bv32, y: bv32, z: bv32)
    ensures F1(x, y, z) == F(x, y, z)
  {
    F1Bits(x, y, z);
  }

  lemma F2Is(x: bv32, y: bv32, z: bv32)
    ensures F2(x, y, z) == G(x, y, z)
  {
    F2Bits(x, y, z);
  }

  function CodeF(i: nat, x: bv32, y: bv32, z: bv32): bv32 {
    if i < 16 then F1(x, y, z) else if i < 32 then F2(x, y, z) else if i < 48 then H(x, y, z) else I(x, y, z)
  }

  lemma CodeFIs(i: nat, x: bv32, y: bv32, z: bv32)
    ensures CodeF(i, x, y, z) == Aux(i, x, y, z)
  {
    hide F1, F2, F, G, H, I;
    F1Is(x, y, z);
    F2Is(x, y, z);
  }

  lemma AddAssoc(x: bv32, y: bv32, z: bv32)
    ensures Add(Add(x, y), z) == Add(x, Add(y, z)) && Add(x, y) == Add(y, x)
  {}

  lemma SumIs(w: bv32, f: bv32, m: bv32, t: bv32)
    ensures Add(w, Add(f, Add(m, t))) == Add(Add(Add(w, f), m), t)
  {
    hide Add;
    AddAssoc(f, m, t);
    AddAssoc(w, Add(f, m), t);
    AddAssoc(w, f, m);
  }

  /** MD5STEP */
  method Md5Step(i: nat, w: bv32, x: bv32, y: bv32, z: bv32, m: bv32, t: bv32, s: nat) returns (w': bv32)
    requires s <= 32
    ensures w' == Operation(w, x, Aux(i, x, y, z), m, t, s)
  {
    hide Add, Rotl, Aux, CodeF;
    CodeFIs(i, x, y, z);
    SumIs(w, CodeF(i, x, y, z), m, t);
    w' := Add(w, Add(CodeF(i, x, y, z), Add(m, t)));
    AddAssoc(Rotl(w', s), x, 0);
    w' := Add(Rotl(w', s), x);
  }

  /** The words of the block in the host's byte order. */
  ghost predicate Loaded(m: seq<bv32>, block: Bytes) {
    |m| == 16 && |block| == 64 && forall k :: 0 <= k < 16 ==> m[k] == Le(block, k)
  }

  /** le32_to_cpu_array */
  method Load(block: Bytes) returns (m: seq<bv32>)
    requires |block| == 64
    ensures Loaded(m, block)
  {
    hide Le;
    m := [];
    while |m| < 16
      invariant |m| <= 16 && forall k :: 0 <= k < |m| ==> m[k] == Le(block, k)
    {
      m := m + [Le(block, |m|)];
    }
  }

  /** A line names the right word, constant and rotation. */
  predicate Line(i: nat, k: nat, t: bv32, s: nat) {
    i < 64 && k == Index(i) && t == T(i) && s == Shift(i)
  }

  /** A line of md5_transform, with the word, the constant and the rotation it names. */
  method StepAt(m: seq<bv32>, ghost h: Words, ghost block: Bytes, i: nat,
                w: bv32, x: bv32, y: bv32, z: bv32, k: nat, t: bv32, s: nat) returns (w': bv32)
    requires Loaded(m, block) && i < 64 && Words(w, x, y, z) == After(h, block, i)
    requires Line(i, k, t, s)
    ensures Words(z, w', x, y) == After(h, block, i + 1)
  {
    hide Operation, Aux, Le, T, Index, Shift;
    w' := Md5Step(i, w, x, y, z, m[k], t, s);
  }

  lemma Lines0()
    ensures Line(0, 0, 0xd76aa478, 7) && Line(1, 1, 0xe8c7b756, 12) && Line(2, 2, 0x242070db, 17) && Line(3, 3, 0xc1bdceee, 22)
    ensures Line(4, 4, 0xf57c0faf, 7) && Line(5, 5, 0x4787c62a, 12) && Line(6, 6, 0xa8304613, 17) && Line(7, 7, 0xfd469501, 22)
  {}

  lemma Lines8()
    ensures Line(8, 8, 0x698098d8, 7) && Line(9, 9, 0x8b44f7af, 12) && Line(10, 10, 0xffff5bb1, 17) && Line(11, 11, 0x895cd7be, 22)
    ensures Line(12, 12, 0x6b901122, 7) && Line(13, 13, 0xfd987193, 12) && Line(14, 14, 0xa679438e, 17) && Line(15, 15, 0x49b40821, 22)
  {}

  method Round1(m: seq<bv32>, ghost h: Words, ghost block: Bytes, a0: bv32, b0: bv32, c0: bv32, d0: bv32)
    returns (a: bv32, b: bv32, c: bv32, d: bv32)
    requires Loaded(m, block) && Words(a0, b0, c0, d0) == After(h, block, 0)
    ensures Words(a, b, c, d) == After(h, block, 16)
  {
    hide After, Loaded, Line;
    Lines0();
    Lines8();
    a, b, c, d := a0, b0, c0, d0;
    a := StepAt(m, h, block, 0, a, b, c, d, 0, 0xd76aa478, 7);
    d := StepAt(m, h, block, 1, d, a, b, c, 1, 0xe8c7b756, 12);
    c := StepAt(m, h, block, 2, c, d, a, b, 2, 0x242070db, 17);
    b := StepAt(m, h, block, 3, b, c, d, a, 3, 0xc1bdceee, 22);
    a := StepAt(m, h, block, 4, a, b, c, d, 4, 0xf57c0faf, 7);
    d := StepAt(m, h, block, 5, d, a, b, c, 5, 0x4787c62a, 12);
    c := StepAt(m, h, block, 6, c, d, a, b, 6, 0xa8304613, 17);
    b := StepAt(m, h, block, 7, b, c, d, a, 7, 0xfd469501, 22);
    a := StepAt(m, h, block, 8, a, b, c, d, 8, 0x698098d8, 7);
    d := StepAt(m, h, block, 9, d, a, b, c, 9, 0x8b44f7af, 12);
    c := StepAt(m, h, block, 10, c, d, a, b, 10, 0xffff5bb1, 17);
    b := StepAt(m, h, block, 11, b, c, d, a, 11, 0x895cd7be, 22);
    a := StepAt(m, h, block, 12, a, b, c, d, 12, 0x6b901122, 7);
    d := StepAt(m, h, block, 13, d, a, b, c, 13, 0xfd987193, 12);
    c := StepAt(m, h, block, 14, c, d, a, b, 14, 0xa679438e, 17);
    b := StepAt(m, h, block, 15, b, c, d, a, 15, 0x49b40821, 22);
  }

  lemma Lines16()
    ensures Line(16, 1, 0xf61e2562, 5) && Line(17, 6, 0xc040b340, 9) && Line(18, 11, 0x265e5a51, 14) && Line(19, 0, 0xe9b6c7aa, 20)
    ensures Line(20, 5, 0xd62f105d, 5) && Line(21, 10, 0x02441453, 9) && Line(22, 15, 0xd8a1e681, 14) && Line(23, 4, 0xe7d3fbc8, 20)
  {}

  lemma Lines24()
    ensures Line(24, 9, 0x21e1cde6, 5) && Line(25, 14, 0xc33707d6, 9) && Line(26, 3, 0xf4d50d87, 14) && Line(27, 8, 0x455a14ed, 20)
    ensures Line(28, 13, 0xa9e3e905, 5) && Line(29, 2, 0xfcefa3f8, 9) && Line(30, 7, 0x676f02d9, 14) && Line(31, 12, 0x8d2a4c8a, 20)
  {}

  method Round2(m: seq<bv32>, ghost h: Words, ghost block: Bytes, a0: bv32, b0: bv32, c0: bv32, d0: bv32)
    returns (a: bv32, b: bv32, c: bv32, d: bv32)
    requires Loaded(m, block) && Words(a0, b0, c0, d0) == After(h, block, 16)
    ensures Words(a, b, c, d) == After(h, block, 32)
  {
    hide After, Loaded, Line;
    Lines16();
    Lines24();
    a, b, c, d := a0, b0, c0, d0;
    a := StepAt(m, h, block, 16, a, b, c, d, 1, 0xf61e2562, 5);
    d := StepAt(m, h, block, 17, d, a, b, c, 6, 0xc040b340, 9);
    c := StepAt(m, h, block, 18, c, d, a, b, 11, 0x265e5a51, 14);
    b := StepAt(m, h, block, 19, b, c, d, a, 0, 0xe9b6c7aa, 20);
    a := StepAt(m, h, block, 20, a, b, c, d, 5, 0xd62f105d, 5);
    d := StepAt(m, h, block, 21, d, a, b, c, 10, 0x02441453, 9);
    c := StepAt(m, h, block, 22, c, d, a, b, 15, 0xd8a1e681, 14);
    b := StepAt(m, h, block, 23, b, c, d, a, 4, 0xe7d3fbc8, 20);
    a := StepAt(m, h, block, 24, a, b, c, d, 9, 0x21e1cde6, 5);
    d := StepAt(m, h, block, 25, d, a, b, c, 14, 0xc33707d6, 9);
    c := StepAt(m, h, block, 26, c, d, a, b, 3, 0xf4d50d87, 14);
    b := StepAt(m, h, block, 27, b, c, d, a, 8, 0x455a14ed, 20);
    a := StepAt(m, h, block, 28, a, b, c, d, 13, 0xa9e3e905, 5);
    d := StepAt(m, h, block, 29, d, a, b, c, 2, 0xfcefa3f8, 9);
    c := StepAt(m, h, block, 30, c, d, a, b, 7, 0x676f02d9, 14);
    b := StepAt(m, h, block, 31, b, c, d, a, 12, 0x8d2a4c8a, 20);
  }

  lemma Lines32()
    ensures Line(32, 5, 0xfffa3942, 4) && Line(33, 8, 0x8771f681, 11) && Line(34, 11, 0x6d9d6122, 16) && Line(35, 14, 0xfde5380c, 23)
    ensures Line(36, 1, 0xa4beea44, 4) && Line(37, 4, 0x4bdecfa9, 11) && Line(38, 7, 0xf6bb4b60, 16) && Line(39, 10, 0xbebfbc70, 23)
  {}

  lemma Lines40()
    ensures Line(40, 13, 0x289b7ec6, 4) && Line(41, 0, 0xeaa127fa, 11) && Line(42, 3, 0xd4ef3085, 16) && Line(43, 6, 0x04881d05, 23)
    ensures Line(44, 9, 0xd9d4d039, 4) && Line(45, 12, 0xe6db99e5, 11) && Line(46, 15, 0x1fa27cf8, 16) && Line(47, 2, 0xc4ac5665, 23)
  {}

  method Round3(m: seq<bv32>, ghost h: Words, ghost block: Bytes, a0: bv32, b0: bv32, c0: bv32, d0: bv32)
    returns (a: bv32, b: bv32, c: bv32, d: bv32)
    requires Loaded(m, block) && Words(a0, b0, c0, d0) == After(h, block, 32)
    ensures Words(a, b, c, d) == After(h, block, 48)
  {
    hide After, Loaded, Line;
    Lines32();
    Lines40();
    a, b, c, d := a0, b0, c0, d0;
    a := StepAt(m, h, block, 32, a, b, c, d, 5, 0xfffa3942, 4);
    d := StepAt(m, h, block, 33, d, a, b, c, 8, 0x8771f681, 11);
    c := StepAt(m, h, block, 34, c, d, a, b, 11, 0x6d9d6122, 16);
    b := StepAt(m, h, block, 35, b, c, d, a, 14, 0xfde5380c, 23);
    a := StepAt(m, h, block, 36, a, b, c, d, 1, 0xa4beea44, 4);
    d := StepAt(m, h, block, 37, d, a, b, c, 4, 0x4bdecfa9, 11);
    c := StepAt(m, h, block, 38, c, d, a, b, 7, 0xf6bb4b60, 16);
    b := StepAt(m, h, block, 39, b, c, d, a, 10, 0xbebfbc70, 23);
    a := StepAt(m, h, block, 40, a, b, c, d, 13, 0x289b7ec6, 4);
    d := StepAt(m, h, block, 41, d, a, b, c, 0, 0xeaa127fa, 11);
    c := StepAt(m, h, block, 42, c, d, a, b, 3, 0xd4ef3085, 16);
    b := StepAt(m, h, block, 43, b, c, d, a, 6, 0x04881d05, 23);
    a := StepAt(m, h, block, 44, a, b, c, d, 9, 0xd9d4d039, 4);
    d := StepAt(m, h, block, 45, d, a, b, c, 12, 0xe6db99e5, 11);
    c := StepAt(m, h, block, 46, c, d, a, b, 15, 0x1fa27cf8, 16);
    b := StepAt(m, h, block, 47, b, c, d, a, 2, 0xc4ac5665, 23);
  }

  lemma Lines48()
    ensures Line(48, 0, 0xf4292244, 6) && Line(49, 7, 0x432aff97, 10) && Line(50, 14, 0xab9423a7, 15) && Line(51, 5, 0xfc93a039, 21)
    ensures Line(52, 12, 0x655b59c3, 6) && Line(53, 3, 0x8f0ccc92, 10) && Line(54, 10, 0xffeff47d, 15) && Line(55, 1, 0x85845dd1, 21)
  {}

  lemma Lines56()
    ensures Line(56, 8, 0x6fa87e4f, 6) && Line(57, 15, 0xfe2ce6e0, 10) && Line(58, 6, 0xa3014314, 15) && Line(59, 13, 0x4e0811a1, 21)
    ensures Line(60, 4, 0xf7537e82, 6) && Line(61, 11, 0xbd3af235, 10) && Line(62, 2, 0x2ad7d2bb, 15) && Line(63, 9, 0xeb86d391, 21)
  {}

  method Round4(m: seq<bv32>, ghost h: Words, ghost block: Bytes, a0: bv32, b0: bv32, c0: bv32, d0: bv32)
    returns (a: bv32, b: bv32, c: bv32, d: bv32)
    requires Loaded(m, block) && Words(a0, b0, c0, d0) == After(h, block, 48)
    ensures Words(a, b, c, d) == After(h, block, 64)
  {
    hide After, Loaded, Line;
    Lines48();
    Lines56();
    a, b, c, d := a0, b0, c0, d0;
    a := StepAt(m, h, block, 48, a, b, c, d, 0, 0xf4292244, 6);
    d := StepAt(m, h, block, 49, d, a, b, c, 7, 0x432aff97, 10);
    c := StepAt(m, h, block, 50, c, d, a, b, 14, 0xab9423a7, 15);
    b := StepAt(m, h, block, 51, b, c, d, a, 5, 0xfc93a039, 21);
    a := StepAt(m, h, block, 52, a, b, c, d, 12, 0x655b59c3, 6);
    d := StepAt(m, h, block, 53, d, a, b, c, 3, 0x8f0ccc92, 10);
    c := StepAt(m, h, block, 54, c, d, a, b, 10, 0xffeff47d, 15);
    b := StepAt(m, h, block, 55, b, c, d, a, 1, 0x85845dd1, 21);
    a := StepAt(m, h, block, 56, a, b, c, d, 8, 0x6fa87e4f, 6);
    d := StepAt(m, h, block, 57, d, a, b, c, 15, 0xfe2ce6e0, 10);
    c := StepAt(m, h, block, 58, c, d, a, b, 6, 0xa3014314, 15);
    b := StepAt(m, h, block, 59, b, c, d, a, 13, 0x4e0811a1, 21);
    a := StepAt(m, h, block, 60, a, b, c, d, 4, 0xf7537e82, 6);
    d := StepAt(m, h, block, 61, d, a, b, c, 11, 0xbd3af235, 10);
    c := StepAt(m, h, block, 62, c, d, a, b, 2, 0x2ad7d2bb, 15);
    b := StepAt(m, h, block, 63, b, c, d, a, 9, 0xeb86d391, 21);
  }

  /** md5_transform */
  method Transform(h: Words, block: Bytes) returns (r: Words)
    requires |block| == 64
    ensures r == Compress(h, block)
  {
    hide After, Loaded, Sum;
    var m := Load(block);
    AtStart(h, block);
    var a, b, c, d := Round1(m, h, block, h.a, h.b, h.c, h.d);
    a, b, c, d := Round2(m, h, block, a, b, c, d);
    a, b, c, d := Round3(m, h, block, a, b, c, d);
    a, b, c, d := Round4(m, h, block, a, b, c, d);
    r := Sum(h, Words(a, b, c, d));
  }

  lemma AtStart(h: Words, block: Bytes)
    requires |block| == 64
    ensures After(h, block, 0) == h
  {}
}
