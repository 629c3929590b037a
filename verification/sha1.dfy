/** SHA-1: sha1_transform against section 6.1.2 of FIPS 180-2, and the context of sha1.c. */
module Sha1Transform {
  import opened HashStream

  datatype Regs = Regs(a: bv32, b: bv32, c: bv32, d: bv32, e: bv32)

  function Add(x: bv32, y: bv32): bv32 { x + y }
  function Xor(x: bv32, y: bv32): bv32 { x ^ y }

  /** A big-endian word. */
  function Be32(b: Bytes, i: nat): bv32
    requires 4 * i + 4 <= |b|
  {
    ((b[4 * i] as bv32) << 24) | ((b[4 * i + 1] as bv32) << 16) | ((b[4 * i + 2] as bv32) << 8) | (b[4 * i + 3] as bv32)
  }

  // ------------------------------------------------------------------
  // FIPS 180-2
  // ------------------------------------------------------------------

  /** The rotations, section 2.2.2. */
  function Rotl1(x: bv32): bv32 { x.RotateLeft(1) }
  function Rotl5(x: bv32): bv32 { x.RotateLeft(5) }
  function Rotl30(x: bv32): bv32 { x.RotateLeft(30) }

  /** The logical functions, section 4.1.1. */
  function Ch(x: bv32, y: bv32, z: bv32): bv32 { (x & y) ^ (!x & z) }
  function Parity(x: bv32, y: bv32, z: bv32): bv32 { x ^ y ^ z }
  function Maj(x: bv32, y: bv32, z: bv32): bv32 { (x & y) ^ (x & z) ^ (y & z) }

  function F(t: nat, x: bv32, y: bv32, z: bv32): bv32 {
    if t < 20 then Ch(x, y, z) else if t < 40 then Parity(x, y, z) else if t < 60 then Maj(x, y, z) else Parity(x, y, z)
  }

  /** The constants, section 4.2.1. */
  function K(t: nat): bv32 {
    if t < 20 then 0x5a827999 else if t < 40 then 0x6ed9eba1 else if t < 60 then 0x8f1bbcdc else 0xca62c1d6
  }

  /** The message schedule of eighty words. */
  function W(block: Bytes, t: nat): bv32
    requires |block| == 64
  {
    if t < 16 then Be32(block, t)
    else Rotl1(Xor(Xor(Xor(W(block, t - 3), W(block, t - 8)), W(block, t - 14)), W(block, t - 16)))
  }

  function Step(r: Regs, t: nat, w: bv32): Regs {
    Regs(Add(Add(Add(Add(Rotl5(r.a), F(t, r.b, r.c, r.d)), r.e), K(t)), w), r.a, Rotl30(r.b), r.c, r.d)
  }

  function After(r: Regs, block: Bytes, n: nat): Regs
    requires |block| == 64
  {
    if n == 0 then r else Step(After(r, block, n - 1), n - 1, W(block, n - 1))
  }

  function Compress(h: Regs, block: Bytes): Regs {
    if |block| != 64 then h
    else
      var r := After(h, block, 80);
      Regs(Add(h.a, r.a), Add(h.b, r.b), Add(h.c, r.c), Add(h.d, r.d), Add(h.e, r.e))
  }

  // ------------------------------------------------------------------
  // The code
  // ------------------------------------------------------------------

  /** The expressions in R0 and R1, R2 and R4, and R3. */
  function Choice(w: bv32, x: bv32, y: bv32): bv32 { (w & (x ^ y)) ^ y }
  function Majority(w: bv32, x: bv32, y: bv32): bv32 { ((w | x) & y) | (w & x) }

  function CodeF(i: nat, w: bv32, x: bv32, y: bv32): bv32 {
    if i < 20 then Choice(w, x, y) else if 40 <= i < 60 then Majority(w, x, y) else Parity(w, x, y)
  }

  lemma CodeFIs(i: nat, w: bv32, x: bv32, y: bv32)
    ensures CodeF(i, w, x, y) == F(i, w, x, y)
  {
    ChoiceIs(w, x, y);
    MajorityIs(w, x, y);
  }

  /** rol */
  function Rol1(x: bv32): bv32 { (x << 1) | (x >> 31) }
  function Rol5(x: bv32): bv32 { (x << 5) | (x >> 27) }
  function Rol30(x: bv32): bv32 { (x << 30) | (x >> 2) }

  lemma RolIs(x: bv32)
    ensures Rol1(x) == Rotl1(x) && Rol5(x) == Rotl5(x) && Rol30(x) == Rotl30(x)
  {}

  lemma ChoiceBits(w: bv32, x: bv32, y: bv32)
    ensures (w & (x ^ y)) ^ y == (w & x) ^ (!w & y)
  {}

  lemma ChoiceIs(w: bv32, x: bv32, y: bv32)
    ensures Choice(w, x, y) == Ch(w, x, y)
  {
    ChoiceBits(w, x, y);
  }

  lemma MajorityBits(w: bv32, x: bv32, y: bv32)
    ensures ((w | x) & y) | (w & x) == (w & x) ^ (w & y) ^ (x & y)
  {}

  lemma MajorityIs(w: bv32, x: bv32, y: bv32)
    ensures Majority(w, x, y) == Maj(w, x, y)
  {
    MajorityBits(w, x, y);
  }

  lemma AddAssoc(x: bv32, y: bv32, z: bv32)
    ensures Add(Add(x, y), z) == Add(x, Add(y, z)) && Add(x, y) == Add(y, x)
  {}

  lemma SumIs(z: bv32, f: bv32, w: bv32, k: bv32, r: bv32)
    ensures Add(z, Add(Add(Add(f, w), k), r)) == Add(Add(Add(Add(r, f), z), k), w)
  {
    hide Add;
    AddAssoc(f, w, k);
    AddAssoc(w, k, 0);
    AddAssoc(f, Add(k, w), r);
    AddAssoc(f, Add(Add(k, w), r), 0);
    AddAssoc(Add(k, w), r, f);
    AddAssoc(Add(k, w), Add(r, f), 0);
    AddAssoc(z, Add(r, f), Add(k, w));
    AddAssoc(z, Add(r, f), 0);
    AddAssoc(Add(Add(r, f), z), k, w);
  }

  /** block32 holds the sixteen words of the schedule that round i may look back to. */
  ghost predicate Window(b32: seq<bv32>, block: Bytes, i: nat) {
    && |b32| == 16 && |block| == 64
    && forall j {:trigger W(block, j)} :: 0 <= j && i - 16 <= j && j < (if i < 16 then 16 else i) ==> b32[j % 16] == W(block, j)
  }

  /** One of R0 to R4: the new values of its last and second registers. */
  method Round(b32: array<bv32>, ghost block: Bytes, i: nat, v: bv32, w: bv32, x: bv32, y: bv32, z: bv32)
    returns (z': bv32, w': bv32)
    requires b32.Length == 16 && Window(b32[..], block, i)
    modifies b32
    ensures Window(b32[..], block, i + 1)
    ensures Regs(z', v, w', x, y) == Step(Regs(v, w, x, y, z), i, W(block, i))
  {
    hide W, F, K, CodeF, Rotl1, Rotl5, Rotl30, Rol1, Rol5, Rol30, Add, Xor;
    ghost var w0 := b32[..];
    if i >= 16 {
      Looking(w0, block, i);
      var x4 := Xor(Xor(Xor(b32[(i + 13) % 16], b32[(i + 8) % 16]), b32[(i + 2) % 16]), b32[i % 16]);
      RolIs(x4);
      b32[i % 16] := Rol1(x4);
      assert b32[..] == w0[i % 16 := W(block, i)];
    }
    Rolling(w0, b32[..], block, i);
    assert b32[..][i % 16] == b32[i % 16];
    CodeFIs(i, w, x, y);
    RolIs(v);
    RolIs(w);
    SumIs(z, CodeF(i, w, x, y), b32[i % 16], K(i), Rol5(v));
    z' := Add(z, Add(Add(Add(CodeF(i, w, x, y), b32[i % 16]), K(i)), Rol5(v)));
    w' := Rol30(w);
  }

  lemma Looking(b: seq<bv32>, block: Bytes, i: nat)
    requires Window(b, block, i) && i >= 16
    ensures W(block, i) == Rotl1(Xor(Xor(Xor(b[(i + 13) % 16], b[(i + 8) % 16]), b[(i + 2) % 16]), b[i % 16]))
  {
    hide Rotl1, Xor, Be32;
    assert b[(i - 3) % 16] == W(block, i - 3) && b[(i - 8) % 16] == W(block, i - 8);
    assert b[(i - 14) % 16] == W(block, i - 14) && b[(i - 16) % 16] == W(block, i - 16);
    assert (i + 13) % 16 == (i - 3) % 16 && (i + 8) % 16 == (i - 8) % 16;
    assert (i + 2) % 16 == (i - 14) % 16 && i % 16 == (i - 16) % 16;
  }

  lemma Rolling(b: seq<bv32>, b': seq<bv32>, block: Bytes, i: nat)
    requires Window(b, block, i) && b' == (if i >= 16 then b[i % 16 := W(block, i)] else b)
    ensures Window(b', block, i + 1) && b'[i % 16] == W(block, i)
  {
    hide W;
    forall j {:trigger W(block, j)} | 0 <= j && i + 1 - 16 <= j && j < (if i + 1 < 16 then 16 else i + 1)
      ensures b'[j % 16] == W(block, j)
    {
      if i >= 16 && j < i {
        assert j % 16 != i % 16;
      }
    }
    if i < 16 {
      assert b[i % 16] == W(block, i);
    }
  }

  /** A round, as progress of the whole. */
  method RoundAt(b32: array<bv32>, ghost h: Regs, ghost block: Bytes, i: nat, v: bv32, w: bv32, x: bv32, y: bv32, z: bv32)
    returns (z': bv32, w': bv32)
    requires b32.Length == 16 && Window(b32[..], block, i) && Regs(v, w, x, y, z) == After(h, block, i)
    modifies b32
    ensures Window(b32[..], block, i + 1) && Regs(z', v, w', x, y) == After(h, block, i + 1)
  {
    hide Step, W;
    z', w' := Round(b32, block, i, v, w, x, y, z);
  }

  /** sha1_transform: five rounds bring the register names back to where they were. */
  method Transform(h: Regs, block: Bytes) returns (r: Regs)
    requires |block| == 64
    ensures r == Compress(h, block)
  {
    hide After, Window, Add;
    var b32 := Load(block);
    var a, b, c, d, e := h.a, h.b, h.c, h.d, h.e;
    AtStart(h, block);
    var i: nat := 0;
    while i < 80
      invariant i <= 80 && i % 5 == 0 && b32.Length == 16 && fresh(b32) && Window(b32[..], block, i)
      invariant Regs(a, b, c, d, e) == After(h, block, i)
    {
      e, b := RoundAt(b32, h, block, i, a, b, c, d, e);
      d, a := RoundAt(b32, h, block, i + 1, e, a, b, c, d);
      c, e := RoundAt(b32, h, block, i + 2, d, e, a, b, c);
      b, d := RoundAt(b32, h, block, i + 3, c, d, e, a, b);
      a, c := RoundAt(b32, h, block, i + 4, b, c, d, e, a);
      i := i + 5;
    }
    r := Regs(Add(h.a, a), Add(h.b, b), Add(h.c, c), Add(h.d, d), Add(h.e, e));
  }

  lemma AtStart(h: Regs, block: Bytes)
    requires |block| == 64
    ensures After(h, block, 0) == h
  {}

  method Load(block: Bytes) returns (b32: array<bv32>)
    requires |block| == 64
    ensures fresh(b32) && b32.Length == 16 && Window(b32[..], block, 0)
  {
    b32 := new bv32[16](_ => 0);
    var i: nat := 0;
    while i < 16
      invariant i <= 16 && forall j :: 0 <= j < i ==> b32[j] == Be32(block, j)
    {
      b32[i] := Be32(block, i);
      i := i + 1;
    }
    ghost var b := b32[..];
    forall j {:trigger W(block, j)} | 0 <= j < 16 ensures b[j % 16] == W(block, j) {
      assert j % 16 == j;
    }
  }
}

/** The context of sha1.c and the padding of section 5.1.1 of FIPS 180-2. */
module Sha1 {
  import opened Common
  import opened HashStream
  import opened Sha1Transform

  const TWO29: nat := 0x2000_0000
  const TWO32: nat := 0x1_0000_0000
  const TWO64: nat := 0x1_0000_0000_0000_0000

  const INITIAL := Regs(0x67452301, 0xefcdab89, 0x98badcfe, 0x10325476, 0xc3d2e1f0)

  /** A length of 64 bits, high-order byte first. */
  function Be64(x: nat): (b: Bytes)
    ensures |b| == 8
  {
    [Low(x / 0x100_0000_0000_0000), Low(x / 0x1_0000_0000_0000), Low(x / 0x100_0000_0000), Low(x / 0x1_0000_0000),
     Low(x / 0x100_0000), Low(x / 0x1_0000), Low(x / 0x100), Low(x)]
  }

  /** The smallest number of zero bytes that makes the length, with the byte before them, 56 modulo 64. */
  function PadZeros(n: nat): (k: nat)
    ensures k < 64 && (n + 1 + k) % 64 == 56
  {
    (119 - n % 64) % 64
  }

  function Pad(m: Bytes, bits: nat): Bytes {
    m + [0x80] + Zeros(PadZeros(|m|)) + Be64(bits)
  }

  function BeWord(w: bv32): Bytes {
    [((w >> 24) & 0xff) as bv8, ((w >> 16) & 0xff) as bv8, ((w >> 8) & 0xff) as bv8, (w & 0xff) as bv8]
  }

  function Digest(h: Regs): Bytes {
    BeWord(h.a) + BeWord(h.b) + BeWord(h.c) + BeWord(h.d) + BeWord(h.e)
  }

  /** The digest of m with the given number in the place of its length in bits. */
  function HashWith(m: Bytes, bits: nat): Bytes {
    Digest(Absorb(Compress, 64, INITIAL, Pad(m, bits)))
  }

  function Hash(m: Bytes): Bytes {
    HashWith(m, 8 * |m| % TWO64)
  }

  /** count += len << 3, where the shift is one of 32 bits. */
  function NewCount(count: nat, len: nat): nat {
    (count + 8 * len % TWO32) % TWO64
  }

  /** In units of bytes. */
  lemma CountInBytes(count: nat, len: nat)
    requires count % 8 == 0
    ensures NewCount(count, len) == 8 * ((count / 8 + len % TWO29) % TWO61)
  {
    Eightfold(len, TWO29);
    Eightfold(count / 8 + len % TWO29, TWO61);
  }

  lemma SumMod(a: nat, b: nat, c: nat, d: nat)
    requires a % 64 == b % 64 && c % 64 == d % 64
    ensures (a + c) % 64 == (b + d) % 64
  {}

  lemma FillIs(u: nat, n: nat, len: nat)
    requires u % 64 == n % 64
    ensures (u + len % TWO29) % TWO61 % 64 == (n + len) % 64
  {
    Coarser(u + len % TWO29, TWO61 / 64);
    Coarser(len, TWO29 / 64);
    SumMod(u, n, len % TWO29, len);
  }

  lemma ExactIs(n: nat, len: nat)
    requires len < TWO32
    ensures 8 * ((n % TWO61 + len % TWO29) % TWO61) == 8 * (n + len) % TWO64 <==> len < TWO29
  {
    Eightfold(n + len, TWO61);
    ModAdd(n, len, TWO61);
    SameRest(n % TWO61 + len % TWO29, len - len % TWO29);
  }

  /** The buffer's fill is always known; the number of bits is exact as long as no call passes 2^29 bytes or more. */
  lemma CountIs(count: nat, n: nat, len: nat)
    requires count % 8 == 0 && count / 8 % 64 == n % 64 && count < TWO64 && len < TWO32
    ensures NewCount(count, len) % 8 == 0 && NewCount(count, len) / 8 % 64 == (n + len) % 64
    ensures count == 8 * n % TWO64 ==> (NewCount(count, len) == 8 * (n + len) % TWO64 <==> len < TWO29)
  {
    hide NewCount;
    CountInBytes(count, len);
    FillIs(count / 8, n, len);
    Eighth((count / 8 + len % TWO29) % TWO61);
    if count == 8 * n % TWO64 {
      Eightfold(n, TWO61);
      Eighth(n % TWO61);
      ExactIs(n, len);
    }
  }

  /** A single call with 2^29 bytes is counted as none. */
  lemma LongUpdateExample()
    ensures NewCount(0, TWO29) == 0 && 8 * TWO29 % TWO64 == TWO32
  {}

  lemma Eighth(x: nat)
    ensures 8 * x % 8 == 0 && 8 * x / 8 == x
  {}

  const TWO61: nat := 0x2000_0000_0000_0000

  lemma Eightfold(x: nat, p: Pos)
    ensures 8 * x % (8 * p) == 8 * (x % p)
  {
    var q, r := x / p, x % p;
    assert x == q * p + r;
    assert 8 * x == q * (8 * p) + 8 * r;
    DivModUnique(8 * x, 8 * p, q, 8 * r);
  }

  lemma Coarser(x: nat, k: Pos)
    ensures x % (64 * k) % 64 == x % 64
  {
    var q, r := x / (64 * k), x % (64 * k);
    assert x == q * (64 * k) + r;
    assert x == (q * k + r / 64) * 64 + r % 64;
    DivModUnique(x, 64, q * k + r / 64, r % 64);
  }

  lemma SameRest(x: nat, d: nat)
    requires d < TWO32
    ensures x % TWO61 == (x + d) % TWO61 <==> d == 0
  {
    var q, r := x / TWO61, x % TWO61;
    assert x == q * TWO61 + r;
    if r + d < TWO61 {
      DivModUnique(x + d, TWO61, q, r + d);
    } else {
      DivModUnique(x + d, TWO61, q + 1, r + d - TWO61);
    }
  }

  /** The test whether the buffer is filled is right if and only if fill and length together do not wrap around. */
  lemma FillTestIs(j: nat, len: nat)
    requires j < 64 && len < TWO32
    ensures (Wrap(j + len) > 63 <==> j + len > 63) <==> j + len < TWO32
  {}

  /** The test of the loop then never wraps around. */
  lemma LoopTest(n: nat, len: nat, i: nat)
    requires n % 64 + len < TWO32 && i <= len && (n + i) % 64 == 0
    ensures Wrap(i + 63) == i + 63
  {
    assert (n % 64 + i) % 64 == 0;
  }

  /** After one byte, 2^32 - 1 more are taken for so few that they fit into the buffer. */
  lemma WrapExample()
    ensures Wrap(1 + (TWO32 - 1)) == 0
  {}

  class Ctx {
    var count: nat
    var state: Regs
    var buffer: Bytes
    ghost var message: Bytes

    ghost predicate Valid()
      reads this
    {
      && Holds(Compress, 64, INITIAL, message, state, buffer)
      && count < TWO64 && count % 8 == 0 && count / 8 % 64 == |message| % 64
    }

    /** The count is the message's length in bits. */
    ghost predicate Exact()
      reads this
    {
      count == 8 * |message| % TWO64
    }

    /** sha1_init */
    constructor ()
      ensures Valid() && Exact() && message == []
    {
      count, state, message := 0, INITIAL, [];
      buffer := Zeros(64);
      new;
      HoldsNothing(Compress, 64, INITIAL, buffer);
    }

    /** sha1_update, where the sum of fill and length does not wrap around. */
    method Update(data: Bytes)
      requires Valid() && |message| % 64 + |data| < TWO32
      modifies this
      ensures Valid() && message == old(message) + data
      ensures old(Exact()) ==> (Exact() <==> |data| < TWO29)
      ensures count == NewCount(old(count), |data|)
    {
      hide Holds, Compress;
      ghost var m0 := message;
      HoldsSize(Compress, 64, INITIAL, message, state, buffer);
      var len := |data|;
      var j := count / 8 % 64;
      CountIs(count, |m0|, len);
      count := NewCount(count, len);
      message := m0 + data;
      var i: nat := 0;
      FillTestIs(j, len);
      if Wrap(j + len) > 63 {
        i := 64 - j;
        HoldsFull(Compress, 64, INITIAL, m0, state, buffer, data[..i], Splice(buffer, j, data[..i]));
        buffer := Splice(buffer, j, data[..i]);
        state := Transform(state, buffer);
        i := Blocks(data, m0, i);
        j := 0;
        HoldsRest(Compress, 64, INITIAL, m0 + data[..i], state, buffer, data[i..]);
      } else {
        HoldsPart(Compress, 64, INITIAL, m0, state, buffer, data);
        assert data[0..] == data;
      }
      Taken(m0, data, i, len);
      assert data[..len] == data && data[i..len] == data[i..];
      buffer := Splice(buffer, j, data[i..]);
    }

    /** for ( ; i + 63 < len; i += 64) */
    method Blocks(data: Bytes, ghost m0: Bytes, i0: nat) returns (i: nat)
      requires i0 <= |data| && Holds(Compress, 64, INITIAL, m0 + data[..i0], state, buffer) && Whole(|m0 + data[..i0]|, 64)
      requires |m0| % 64 + |data| < TWO32
      modifies this`state
      ensures i <= |data| && |data| - i < 64
      ensures Holds(Compress, 64, INITIAL, m0 + data[..i], state, buffer) && Whole(|m0 + data[..i]|, 64)
    {
      hide Holds, Compress, Wrap;
      i := i0;
      LoopTest(|m0|, |data|, i);
      while Wrap(i + 63) < |data|
        invariant i <= |data| && Wrap(i + 63) == i + 63 && Holds(Compress, 64, INITIAL, m0 + data[..i], state, buffer)
        invariant Whole(|m0 + data[..i]|, 64)
      {
        HoldsBlock(Compress, 64, INITIAL, m0 + data[..i], state, buffer, data[i..i + 64]);
        Taken(m0, data, i, i + 64);
        state := Transform(state, data[i..i + 64]);
        i := i + 64;
        LoopTest(|m0|, |data|, i);
      }
    }

    /** sha1_final */
    method Final() returns (out: Bytes)
      requires Valid()
      modifies this
      ensures out == HashWith(old(message), old(count))
      ensures old(Exact()) ==> out == Hash(old(message))
    {
      hide Holds, Compress, Absorb, Digest, Be64;
      ghost var m, bits := message, count;
      var tail := Be64(count);
      var index := count / 8 % 64;
      var padlen := if index < 56 then 56 - index else 64 + 56 - index;
      Padded(|m|, padlen);
      Update(([0x80] + Zeros(63))[..padlen]);
      Update(tail);
      assert message == Pad(m, bits) by {
        assert ([0x80] + Zeros(63))[..padlen] == [0x80] + Zeros(padlen - 1);
        assert m + ([0x80] + Zeros(padlen - 1)) + tail == m + [0x80] + Zeros(padlen - 1) + tail;
      }
      AbsorbIs(Compress, 64, INITIAL, message, state, buffer);
      out := Digest(state);
      count, state, buffer, message := 0, Regs(0, 0, 0, 0, 0), Zeros(64), [];
    }
  }

  lemma Padded(n: nat, padlen: nat)
    requires padlen == if n % 64 < 56 then 56 - n % 64 else 64 + 56 - n % 64
    ensures 1 <= padlen <= 64 && PadZeros(n) == padlen - 1
  {}
}
