/** MD5: the context of md5.c, against sections 3.1 to 3.5 of RFC 1321. */
module Md5 {
  import opened Common
  import opened HashStream
  import opened Md5Transform

  const TWO29: nat := 0x2000_0000
  const TWO32: nat := 0x1_0000_0000
  const TWO64: nat := 0x1_0000_0000_0000_0000

  const INITIAL := Words(0x67452301, 0xefcdab89, 0x98badcfe, 0x10325476)

  /** A word of 32 bits, low-order byte first. */
  function Le32(x: nat): (b: Bytes)
    ensures |b| == 4
  {
    [Low(x), Low(x / 0x100), Low(x / 0x1_0000), Low(x / 0x100_0000)]
  }

  function Le64(x: nat): (b: Bytes)
    ensures |b| == 8
  {
    Le32(x % TWO32) + Le32(x / TWO32)
  }

  /** Section 3.1: as many zeros as make the length, with the first padding byte, 56 modulo 64. */
  function PadZeros(n: nat): (k: nat)
    ensures k < 64 && (n + 1 + k) % 64 == 56
  {
    (119 - n % 64) % 64
  }

  /** Sections 3.1 and 3.2. */
  function Pad(m: Bytes): Bytes {
    m + [0x80] + Zeros(PadZeros(|m|)) + Le64(8 * |m| % TWO64)
  }

  function LeWord(w: bv32): (b: Bytes)
    ensures |b| == 4
  {
    [(w & 0xff) as bv8, ((w >> 8) & 0xff) as bv8, ((w >> 16) & 0xff) as bv8, ((w >> 24) & 0xff) as bv8]
  }

  function Digest(h: Words): Bytes {
    LeWord(h.a) + LeWord(h.b) + LeWord(h.c) + LeWord(h.d)
  }

  /** The digest of a whole message. */
  function Hash(m: Bytes): Bytes {
    Digest(Absorb(Compress, 64, INITIAL, Pad(m)))
  }

  lemma CountIs(n: nat, c: nat)
    requires c == n % TWO64
    ensures c % 64 == n % 64
    ensures Le64(8 * n % TWO64) == Le32(8 * c % TWO32) + Le32(c / TWO29 % TWO32)
  {
    hide Le32;
    ByteCount(n, c);
    Bits(8 * c);
    assert 8 * c / TWO32 == c / TWO29;
  }

  /** The bits of all the bytes and of those counted differ by whole multiples of 2^64. */
  lemma ByteCount(n: nat, c: nat)
    requires c == n % TWO64
    ensures c % 64 == n % 64 && 8 * n % TWO64 == 8 * c % TWO64
  {
    var q := n / TWO64;
    assert n == q * TWO64 + c;
    Wraps(8 * q, TWO64, 8 * c);
    Wraps(q * (TWO64 / 64), 64, c);
  }

  lemma Wraps(q: int, d: Pos, x: nat)
    ensures (q * d + x) % d == x % d
  {
    assert (q + x / d) * d == q * d + x / d * d;
    DivModUnique(q * d + x, d, q + x / d, x % d);
  }

  lemma Bits(x: nat)
    ensures x % TWO64 % TWO32 == x % TWO32 && x % TWO64 / TWO32 == x / TWO32 % TWO32
  {
    var q, r := x / TWO64, x % TWO64;
    assert x == q * TWO64 + r;
    DivModUnique(x, TWO32, q * TWO32 + r / TWO32, r % TWO32);
    DivModUnique(x / TWO32, TWO32, q, r / TWO32);
  }

  class Ctx {
    var hash: Words
    var block: Bytes
    var byteCount: nat
    ghost var message: Bytes                   // what has been hashed so far

    ghost predicate Valid()
      reads this
    {
      Holds(Compress, 64, INITIAL, message, hash, block) && byteCount == |message| % TWO64
    }

    /** md5_init */
    constructor ()
      ensures Valid() && message == []
    {
      hash, byteCount, message := INITIAL, 0, [];
      block := Zeros(64);
      new;
      HoldsNothing(Compress, 64, INITIAL, block);
    }

    /** md5_update */
    method Update(data: Bytes)
      requires Valid() && |data| < TWO32
      modifies this
      ensures Valid() && message == old(message) + data
    {
      hide Holds, Compress;
      ghost var m0 := message;
      CountIs(|message|, byteCount);
      HoldsSize(Compress, 64, INITIAL, message, hash, block);
      var avail := 64 - byteCount % 64;
      Counted(|message|, byteCount, |data|);
      byteCount := (byteCount + |data|) % TWO64;
      message := m0 + data;
      if avail > |data| {
        HoldsPart(Compress, 64, INITIAL, m0, hash, block, data);
        block := Splice(block, 64 - avail, data);
        return;
      }
      HoldsFull(Compress, 64, INITIAL, m0, hash, block, data[..avail], Splice(block, 64 - avail, data[..avail]));
      block := Splice(block, 64 - avail, data[..avail]);
      hash := Transform(hash, block);
      var i := avail;
      Blocks(data, m0, i);
      assert m0 + data[..|data|] == m0 + data;
    }

    /** The whole blocks of the data from i on, and the rest into the buffer. */
    method Blocks(data: Bytes, ghost m0: Bytes, i0: nat)
      requires i0 <= |data| && Holds(Compress, 64, INITIAL, m0 + data[..i0], hash, block)
      requires Whole(|m0 + data[..i0]|, 64)
      modifies this`hash, this`block
      ensures Holds(Compress, 64, INITIAL, m0 + data, hash, block)
    {
      hide Holds, Compress;
      var i := i0;
      while |data| - i >= 64
        invariant i <= |data| && Holds(Compress, 64, INITIAL, m0 + data[..i], hash, block)
        invariant Whole(|m0 + data[..i]|, 64)
      {
        HoldsBlock(Compress, 64, INITIAL, m0 + data[..i], hash, block, data[i..i + 64]);
        Taken(m0, data, i, i + 64);
        block := data[i..i + 64];
        hash := Transform(hash, block);
        HoldsAnyBuffer(Compress, 64, INITIAL, m0 + data[..i + 64], hash, block);
        i := i + 64;
      }
      HoldsSize(Compress, 64, INITIAL, m0 + data[..i], hash, block);
      HoldsPart(Compress, 64, INITIAL, m0 + data[..i], hash, block, data[i..]);
      Taken(m0, data, i, |data|);
      assert data[..|data|] == data;
      block := Splice(block, 0, data[i..]);
    }

    /** md5_final: the digest of everything that was passed to the updates, in one message. */
    method Final() returns (out: Bytes)
      requires Valid()
      modifies this
      ensures out == Hash(old(message))
    {
      hide Holds, Compress, Absorb, Digest, Le32;
      ghost var m := message;
      CountIs(|m|, byteCount);
      HoldsSize(Compress, 64, INITIAL, m, hash, block);
      var offset := byteCount % 64;
      var p := offset;
      var padding: int := 56 - (offset + 1);
      block := Splice(block, p, [0x80]);
      p := p + 1;
      ghost var tail := Le32(8 * byteCount % TWO32) + Le32(byteCount / TWO29 % TWO32);
      if padding < 0 {
        block := Splice(block, p, Zeros((padding + 8) as nat));
        HoldsFull(Compress, 64, INITIAL, m, hash, old(block), [0x80] + Zeros(63 - offset), block);
        SpliceTwice(old(block), offset, [0x80], Zeros(63 - offset));
        hash := Transform(hash, block);
        p, padding := 0, 56;
        m := m + ([0x80] + Zeros(63 - offset));
      }
      ghost var block1 := block;
      block := Splice(block, p, Zeros(padding));
      block := Splice(block, 56, Le32(8 * byteCount % TWO32));
      block := Splice(block, 60, Le32(byteCount / TWO29 % TWO32));
      LastBlock(old(message), m, hash, old(block), block1, block, offset, tail);
      hash := Transform(hash, block);
      out := Digest(hash);
      hash, block, byteCount, message := Words(0, 0, 0, 0), Zeros(64), 0, [];
    }
  }

  lemma SpliceTwice(buf: Bytes, at: nat, a: Bytes, b: Bytes)
    requires at + |a| + |b| <= |buf|
    ensures Splice(Splice(buf, at, a), at + |a|, b) == Splice(buf, at, a + b)
  {}

  lemma PadZerosIs(n: nat)
    ensures PadZeros(n) == if n % 64 < 56 then 55 - n % 64 else 119 - n % 64
  {}

  /** The block that md5_final transforms last completes the padded message. */
  lemma LastBlock(m0: Bytes, m: Bytes, h: Words, buf0: Bytes, buf1: Bytes, last: Bytes,
                  offset: nat, tail: Bytes)
    requires |buf0| == 64 && |buf1| == 64 && |tail| == 8 && offset == |m0| % 64 && tail == Le64(8 * |m0| % TWO64)
    requires offset < 56 ==> m == m0 && Holds(Compress, 64, INITIAL, m0, h, buf0) && buf1 == Splice(buf0, offset, [0x80])
    requires offset >= 56 ==> m == m0 + ([0x80] + Zeros(63 - offset)) && Holds(Compress, 64, INITIAL, m, h, buf1)
    requires last == Splice(Splice(Splice(buf1, if offset < 56 then offset + 1 else 0,
      Zeros(if offset < 56 then 55 - offset else 56)), 56, tail[..4]), 60, tail[4..])
    ensures Compress(h, last) == Absorb(Compress, 64, INITIAL, Pad(m0))
  {
    hide Absorb, Le64, PadZeros, Compress;
    PadZerosIs(|m0|);
    if offset < 56 {
      var z := Zeros(55 - offset);
      var d := [0x80] + z + tail;
      HoldsFull(Compress, 64, INITIAL, m0, h, buf0, d, buf0);
      assert last == Splice(buf0, offset, d);
      assert m0 + d == Pad(m0);
      AbsorbIs(Compress, 64, INITIAL, m0 + d, Compress(h, last), buf0);
    } else {
      var d := Zeros(56) + tail;
      assert |m| == |m0| + 64 - offset;
      BoundaryAfter(|m0|, offset);
      HoldsBlock(Compress, 64, INITIAL, m, h, buf1, d);
      assert last == d;
      ZerosAdd(63 - offset, 56);
      assert m + d == Pad(m0);
      AbsorbIs(Compress, 64, INITIAL, m + d, Compress(h, last), buf1);
    }
  }

  lemma BoundaryAfter(n: nat, offset: nat)
    requires offset == n % 64
    ensures (n + 64 - offset) % 64 == 0
  {}

  lemma Counted(n: nat, c: nat, d: nat)
    requires c == n % TWO64
    ensures (c + d) % TWO64 == (n + d) % TWO64
  {
    ModAdd(n, d, TWO64);
  }
}
