/** SHA-512 and SHA-384: the context of sha512.c, and the padding of section 5.1.2 of FIPS 180-2. */
module Sha512 {
  import opened Common
  import opened HashStream
  import opened Sha512Transform

  const TWO29: nat := 0x2000_0000
  const TWO32: nat := 0x1_0000_0000
  const TWO64: nat := 0x1_0000_0000_0000_0000
  const TWO96: nat := 0x1_0000_0000_0000_0000_0000_0000
  const TWO128: nat := 0x1_0000_0000_0000_0000_0000_0000_0000_0000

  // ------------------------------------------------------------------
  // The number of bits, in four words
  // ------------------------------------------------------------------

  /** count[0], the low-order word, to count[3] */
  datatype Count = Count(c0: nat, c1: nat, c2: nat, c3: nat) {
    predicate Valid() {
      c0 < TWO32 && c1 < TWO32 && c2 < TWO32 && c3 < TWO32
    }

    function Value(): nat {
      c0 + c1 * TWO32 + c2 * TWO64 + c3 * TWO96
    }
  }

  /** The carry into count[1] and on. */
  function Carry(c: Count): Count {
    var c1 := (c.c1 + 1) % TWO32;
    if c1 != 0 then c.(c1 := c1)
    else
      var c2 := (c.c2 + 1) % TWO32;
      if c2 != 0 then c.(c1 := c1, c2 := c2) else c.(c1 := c1, c2 := c2, c3 := (c.c3 + 1) % TWO32)
  }

  /** The update of the count in sha512_update. */
  function NewCount(c: Count, len: nat): Count {
    var add := 8 * len % TWO32;
    var c0 := (c.c0 + add) % TWO32;
    var next := c.(c0 := c0);
    if c0 < add then
      var carried := Carry(next);
      carried.(c1 := (carried.c1 + len / TWO29) % TWO32)
    else next
  }

  lemma CarryIs(c: Count)
    requires c.Valid()
    ensures Carry(c).Valid() && Carry(c).c0 == c.c0
    ensures Carry(c).Value() == c.Value() + TWO32 || Carry(c).Value() == c.Value() + TWO32 - TWO128
  {}

  /** The condition under which the count stays exact. */
  ghost predicate Counts(c: Count, len: nat) {
    var add := 8 * len % TWO32;
    len < TWO29 || (c.c0 + add >= TWO32 && Carry(c).c1 + len / TWO29 < TWO32)
  }

  lemma LowWord(a: nat, b: nat)
    requires a < TWO32 && b < TWO32
    ensures (a + b) % TWO32 == (if a + b < TWO32 then a + b else a + b - TWO32)
    ensures (a + b) % TWO32 < b <==> a + b >= TWO32
  {}

  lemma Shifted(len: nat)
    requires len < TWO32
    ensures 8 * len == 8 * len % TWO32 + len / TWO29 * TWO32 && len / TWO29 < 8 && (len / TWO29 == 0 <==> len < TWO29)
  {
    var q, r := len / TWO29, len % TWO29;
    assert len == q * TWO29 + r;
    DivModUnique(8 * len, TWO32, q, 8 * r);
  }

  /** By how much the count grows, modulo 2^128. */
  lemma Growth(c: Count, len: nat) returns (k: nat, lost: nat)
    requires c.Valid() && len < TWO32
    ensures NewCount(c, len).Valid()
    ensures lost <= TWO64 && (lost == 0 <==> Counts(c, len))
    ensures NewCount(c, len).Value() + lost + k * TWO128 == c.Value() + 8 * len
  {
    Shifted(len);
    var add, high := 8 * len % TWO32, len / TWO29;
    LowWord(c.c0, add);
    if (c.c0 + add) % TWO32 < add {
      k, lost := GrowthCarried(c, len);
    } else {
      k, lost := 0, high * TWO32;
    }
  }

  lemma GrowthCarried(c: Count, len: nat) returns (k: nat, lost: nat)
    requires c.Valid() && len < TWO32 && c.c0 + 8 * len % TWO32 >= TWO32
    ensures NewCount(c, len).Valid()
    ensures lost <= TWO64 && (lost == 0 <==> Counts(c, len))
    ensures NewCount(c, len).Value() + lost + k * TWO128 == c.Value() + 8 * len
  {
    hide Carry;
    Shifted(len);
    var add, high := 8 * len % TWO32, len / TWO29;
    LowWord(c.c0, add);
    var next := c.(c0 := c.c0 + add - TWO32);
    CarryIs(next);
    SameCarry(c, next.c0);
    var carried := Carry(next);
    LowWord(carried.c1, high);
    k := if carried.Value() == next.Value() + TWO32 then 0 else 1;
    lost := if carried.c1 + high < TWO32 then 0 else TWO64;
  }

  lemma SameCarry(c: Count, c0: nat)
    ensures Carry(c.(c0 := c0)) == Carry(c).(c0 := c0)
  {}

  /**
    The count is exact modulo 2^128 after a call if it was before, if and only
    if the call passed less than 2^29 bytes, or the low word overflowed and
    count[1] then took up the rest without overflowing.
  */
  lemma CountIs(c: Count, n: nat, len: nat)
    requires c.Valid() && len < TWO32 && c.Value() == 8 * n % TWO128
    ensures NewCount(c, len).Valid()
    ensures NewCount(c, len).Value() == 8 * (n + len) % TWO128 <==> Counts(c, len)
  {
    hide NewCount, Counts, Count.Value;
    var k, lost := Growth(c, len);
    var q := 8 * n / TWO128;
    assert 8 * n == q * TWO128 + c.Value();
    ValueBound(NewCount(c, len));
    var v := NewCount(c, len).Value();
    assert 8 * (n + len) == (q + k) * TWO128 + v + lost;
    if v + lost < TWO128 {
      DivModUnique(8 * (n + len), TWO128, q + k, v + lost);
    } else {
      DivModUnique(8 * (n + len), TWO128, q + k + 1, v + lost - TWO128);
    }
  }

  /** A first call with 2^29 bytes is counted as none. */
  lemma LongUpdateExample()
    ensures !Counts(Count(0, 0, 0, 0), TWO29) && NewCount(Count(0, 0, 0, 0), TWO29).Value() == 0
  {}

  lemma ValueBound(c: Count)
    requires c.Valid()
    ensures c.Value() < TWO128
  {}

  // ------------------------------------------------------------------
  // The message
  // ------------------------------------------------------------------

  function Be32(x: nat): (b: Bytes)
    ensures |b| == 4
  {
    [Low(x / 0x100_0000), Low(x / 0x1_0000), Low(x / 0x100), Low(x)]
  }

  /** The sixteen bytes of the length, from the four words. */
  function LengthBytes(c: Count): (b: Bytes)
    ensures |b| == 16
  {
    Be32(c.c3) + Be32(c.c2) + Be32(c.c1) + Be32(c.c0)
  }

  /** A length of 128 bits, high-order byte first. */
  function Be128(x: nat): (b: Bytes)
    ensures |b| == 16
  {
    Be32(x / TWO96 % TWO32) + Be32(x / TWO64 % TWO32) + Be32(x / TWO32 % TWO32) + Be32(x % TWO32)
  }

  lemma LengthIs(c: Count)
    requires c.Valid()
    ensures LengthBytes(c) == Be128(c.Value())
  {
    hide Be32;
    var x := c.Value();
    DivModUnique(x, TWO32, c.c1 + c.c2 * TWO32 + c.c3 * TWO64, c.c0);
    DivModUnique(x / TWO32, TWO32, c.c2 + c.c3 * TWO32, c.c1);
    DivModUnique(x, TWO64, c.c2 + c.c3 * TWO32, c.c0 + c.c1 * TWO32);
    DivModUnique(x / TWO64, TWO32, c.c3, c.c2);
    DivModUnique(x, TWO96, c.c3, c.c0 + c.c1 * TWO32 + c.c2 * TWO64);
    DivModUnique(c.c3, TWO32, 0, c.c3);
  }

  /** The smallest number of zero bytes that makes the length, with the byte before them, 112 modulo 128. */
  function PadZeros(n: nat): (k: nat)
    ensures k < 128 && (n + 1 + k) % 128 == 112
  {
    (239 - n % 128) % 128
  }

  function Pad(m: Bytes, bits: nat): Bytes {
    m + [0x80] + Zeros(PadZeros(|m|)) + Be128(bits)
  }

  function BeWord(w: bv64): Bytes {
    [((w >> 56) & 0xff) as bv8, ((w >> 48) & 0xff) as bv8, ((w >> 40) & 0xff) as bv8, ((w >> 32) & 0xff) as bv8,
     ((w >> 24) & 0xff) as bv8, ((w >> 16) & 0xff) as bv8, ((w >> 8) & 0xff) as bv8, (w & 0xff) as bv8]
  }

  function Digest(h: Words): Bytes {
    BeWord(h.a) + BeWord(h.b) + BeWord(h.c) + BeWord(h.d) + BeWord(h.e) + BeWord(h.f) + BeWord(h.g) + BeWord(h.h)
  }

  function HashWith(initial: Words, m: Bytes, bits: nat): Bytes {
    Digest(Absorb(Compress, 128, initial, Pad(m, bits)))
  }

  function Hash(initial: Words, m: Bytes): Bytes {
    HashWith(initial, m, 8 * |m| % TWO128)
  }

  /** The low word says how full the buffer is. */
  predicate FillIs(c: Count, n: nat) {
    c.c0 % 8 == 0 && c.c0 / 8 % 128 == n % 128
  }

  lemma FillGrows(c: Count, n: nat, len: nat)
    requires c.Valid() && FillIs(c, n) && len < TWO32
    ensures FillIs(NewCount(c, len), n + len)
  {
    Shifted(len);
    LowWord(c.c0, 8 * len % TWO32);
    var u, l := c.c0 / 8, len % TWO29;
    assert 8 * len % TWO32 == 8 * l;
    SameCarry(c, (c.c0 + 8 * l) % TWO32);
    assert NewCount(c, len).c0 == (c.c0 + 8 * l) % TWO32;
    var c0 := NewCount(c, len).c0;
    assert c0 == 8 * (u + l) || c0 == 8 * (u + l - TWO29);
    Mod128(u, l, n, len, u + l);
    Mod128(u, l, n, len, u + l - TWO29);
  }

  lemma Mod128(u: nat, l: nat, n: nat, len: nat, x: int)
    requires u % 128 == n % 128 && l == len % TWO29 && (x == u + l || x == u + l - TWO29)
    ensures x % 128 == (n + len) % 128
  {
    var q := len / TWO29;
    assert len == q * TWO29 + l;
    assert TWO29 == 128 * 0x40_0000;
    assert n + len == (n - n % 128) + n % 128 + q * TWO29 + l;
  }

  /** While fill and length together do not wrap around, the test of the loop does not either. */
  lemma LoopTest(n: nat, len: nat, i: nat)
    requires n % 128 + len < TWO32 && i <= len && (n + i) % 128 == 0
    ensures Wrap(i + 127) == i + 127
  {
    assert (n % 128 + i) % 128 == 0;
  }

  /** At index i, one that a loop over `len` bytes may come to, its test finds out whether a block is left. */
  ghost predicate TestRight(index: nat, len: nat, i: nat) {
    i <= len && (index + i) % 128 == 0 ==> (Wrap(i + 127) < len <==> i + 127 < len)
  }

  /** And only then: otherwise the loop comes to an index at which it goes on although less than a block is left. */
  lemma LoopTestIs(index: nat, len: nat)
    requires index < 128 && len < TWO32
    ensures (forall i: nat :: TestRight(index, len, i)) <==> index + len < TWO32
  {
    if index + len < TWO32 {
      forall i: nat ensures TestRight(index, len, i) {
        if i <= len && (index + i) % 128 == 0 {
          LoopTest(index, len, i);
        }
      }
    } else {
      var i := TWO32 - index;
      assert (index + i) % 128 == 0 && Wrap(i + 127) == 127 - index < len <= i + 127;
      assert !TestRight(index, len, i);
    }
  }

  /** After one byte, 2^32 - 1 more: with all of them hashed the loop still goes on. */
  lemma WrapExample()
    ensures var i := TWO32 - 1; (1 + i) % 128 == 0 && Wrap(i + 127) == 126 < i
  {}

  class Ctx {
    const initial: Words    // H0 to H7, or HP0 to HP7 for SHA-384

    var state: Words
    var count: Count
    var buf: Bytes
    ghost var message: Bytes

    ghost predicate Valid()
      reads this
    {
      Holds(Compress, 128, initial, message, state, buf) && count.Valid() && FillIs(count, |message|)
    }

    ghost predicate Exact()
      reads this
    {
      count.Value() == 8 * |message| % TWO128
    }

    /** sha512_init */
    constructor (initial: Words)
      ensures Valid() && Exact() && message == [] && this.initial == initial
    {
      this.initial := initial;
      state, count, message := initial, Count(0, 0, 0, 0), [];
      buf := Zeros(128);
      new;
      HoldsNothing(Compress, 128, initial, buf);
    }

    /** sha512_update, where the index of its loop does not wrap around. */
    method Update(data: Bytes)
      requires Valid() && |message| % 128 + |data| < TWO32
      modifies this`state, this`count, this`buf, this`message
      ensures Valid() && message == old(message) + data && count == NewCount(old(count), |data|)
      ensures old(Exact()) ==> (Exact() <==> Counts(old(count), |data|))
    {
      hide Holds, NewCount, Counts, Count.Value, Compress, Wrap;
      ghost var m0, n := message, |message|;
      HoldsSize(Compress, 128, initial, message, state, buf);
      var len := |data|;
      var index := count.c0 / 8 % 128;
      FillGrows(count, n, len);
      CountValid(count, len);
      if Exact() {
        CountIs(count, n, len);
      }
      count := NewCount(count, len);
      message := m0 + data;
      var partLen := 128 - index;
      var i: nat := 0;
      if len >= partLen {
        i := partLen;
        HoldsFull(Compress, 128, initial, m0, state, buf, data[..i], Splice(buf, index, data[..i]));
        buf := Splice(buf, index, data[..i]);
        state := Transform(state, buf);
        i := Blocks(data, m0, i);
        index := 0;
        HoldsRest(Compress, 128, initial, m0 + data[..i], state, buf, data[i..]);
      } else {
        HoldsPart(Compress, 128, initial, m0, state, buf, data);
        assert data[0..] == data;
      }
      Taken(m0, data, i, len);
      assert data[..len] == data && data[i..len] == data[i..];
      buf := Splice(buf, index, data[i..]);
    }

    /** for (i = part_len; i + 127 < len; i += 128) */
    method Blocks(data: Bytes, ghost m0: Bytes, i0: nat) returns (i: nat)
      requires i0 <= |data| && Holds(Compress, 128, initial, m0 + data[..i0], state, buf) && Whole(|m0 + data[..i0]|, 128)
      requires |m0| % 128 + |data| < TWO32
      modifies this`state
      ensures i <= |data| && |data| - i < 128
      ensures Holds(Compress, 128, initial, m0 + data[..i], state, buf) && Whole(|m0 + data[..i]|, 128)
    {
      hide Holds, Compress, Wrap;
      i := i0;
      LoopTest(|m0|, |data|, i);
      while Wrap(i + 127) < |data|
        invariant i <= |data| && Wrap(i + 127) == i + 127 && Holds(Compress, 128, initial, m0 + data[..i], state, buf)
        invariant Whole(|m0 + data[..i]|, 128)
      {
        HoldsBlock(Compress, 128, initial, m0 + data[..i], state, buf, data[i..i + 128]);
        Taken(m0, data, i, i + 128);
        state := Transform(state, data[i..i + 128]);
        i := i + 128;
        LoopTest(|m0|, |data|, i);
      }
    }

    /** sha512_final */
    method Final() returns (out: Bytes)
      requires Valid()
      modifies this`state, this`count, this`buf, this`message
      ensures out == HashWith(initial, old(message), old(count).Value())
      ensures old(Exact()) ==> out == Hash(initial, old(message))
    {
      hide Holds, Absorb, Digest, LengthBytes, Be128, NewCount, Counts, Count.Value, Compress;
      ghost var m, bits := message, count.Value();
      var tail := LengthBytes(count);
      LengthIs(count);
      var index := count.c0 / 8 % 128;
      var padLen := if index < 112 then 112 - index else 128 + 112 - index;
      Padded(|m|, padLen);
      Update(([0x80] + Zeros(127))[..padLen]);
      Update(tail);
      assert message == Pad(m, bits) by {
        assert ([0x80] + Zeros(127))[..padLen] == [0x80] + Zeros(padLen - 1);
        assert m + ([0x80] + Zeros(padLen - 1)) + tail == m + [0x80] + Zeros(padLen - 1) + tail;
      }
      AbsorbIs(Compress, 128, initial, message, state, buf);
      out := Digest(state);
      count, state, buf, message := Count(0, 0, 0, 0), Words(0, 0, 0, 0, 0, 0, 0, 0), Zeros(128), [];
    }
  }

  lemma CountValid(c: Count, len: nat)
    requires c.Valid() && len < TWO32
    ensures NewCount(c, len).Valid()
  {
    var k, lost := Growth(c, len);
  }

  lemma Padded(n: nat, padLen: nat)
    requires padLen == if n % 128 < 112 then 112 - n % 128 else 128 + 112 - n % 128
    ensures 1 <= padLen <= 128 && PadZeros(n) == padLen - 1
  {}

  // ------------------------------------------------------------------
  // A whole digest
  // ------------------------------------------------------------------

  const INITIAL_512 := Words(0x6a09e667f3bcc908, 0xbb67ae8584caa73b, 0x3c6ef372fe94f82b, 0xa54ff53a5f1d36f1,
                             0x510e527fade682d1, 0x9b05688c2b3e6c1f, 0x1f83d9abfb41bd6b, 0x5be0cd19137e2179)

  function Concat(pieces: seq<Bytes>): Bytes {
    if pieces == [] then [] else Concat(pieces[..|pieces| - 1]) + pieces[|pieces| - 1]
  }

  /** init, one update for each piece and final: however the message is cut up, its SHA-512 digest. */
  method DigestPieces(pieces: seq<Bytes>) returns (out: Bytes)
    requires forall p <- pieces :: |p| < TWO29
    ensures out == Hash(INITIAL_512, Concat(pieces))
  {
    hide Compress, Hash, HashWith, Ctx.Valid, Ctx.Exact, NewCount;
    var ctx := new Ctx(INITIAL_512);
    var i: nat := 0;
    while i < |pieces|
      invariant i <= |pieces| && fresh(ctx) && ctx.initial == INITIAL_512
      invariant ctx.Valid() && ctx.Exact() && ctx.message == Concat(pieces[..i])
    {
      ctx.Update(pieces[i]);
      assert pieces[..i + 1][..i] == pieces[..i];
      i := i + 1;
    }
    assert pieces[..i] == pieces;
    out := ctx.Final();
  }
}
