/** crypto_hmac and the update of a digest from a scatterlist, against section 2 of RFC 2104. */
module Hmac {
  import opened Common
  import opened Scatterwalk

  type Bytes = seq<bv8>

  // ------------------------------------------------------------------
  // RFC 2104
  // ------------------------------------------------------------------

  /** Keys longer than a block are hashed first. */
  function ShortKey(hash: Bytes -> Bytes, b: nat, key: Bytes): Bytes {
    if |key| > b then hash(key) else key
  }

  /** The key, filled up with zeros, xored with a constant byte. */
  function Padded(key: Bytes, b: nat, pad: bv8): (r: Bytes)
    ensures |r| == b
  {
    seq(b, i requires 0 <= i => (if i < |key| then key[i] else 0) ^ pad)
  }

  function HmacOf(hash: Bytes -> Bytes, b: nat, key: Bytes, text: Bytes): Bytes {
    var k := ShortKey(hash, b, key);
    hash(Padded(k, b, 0x5c) + hash(Padded(k, b, 0x36) + text))
  }

  // ------------------------------------------------------------------
  // The code
  // ------------------------------------------------------------------

  /** A digest: what it makes of a message, and of bytes put into a context that a final has wiped. */
  datatype Algorithm = Algorithm(hash: Bytes -> Bytes, wiped: Bytes -> Bytes)

  /** A digest's context: what it was given since dia_init, or else since the last dia_final. */
  datatype Context = Context(started: bool, bytes: Bytes) {
    function Digest(alg: Algorithm): Bytes {
      if started then alg.hash(bytes) else alg.wiped(bytes)
    }
  }

  /** The outer digest, of a padded key and an inner digest. */
  function Outer(alg: Algorithm, b: nat, key: Bytes, inner: Bytes): Bytes {
    alg.hash(Padded(key, b, 0x5c) + inner)
  }

  /** What crypto_hmac_final leaves in the output, for a key of any length. */
  function FinalOf(alg: Algorithm, b: nat, key: Bytes, ctx: Context): Bytes {
    if |key| > b then Outer(alg, b, alg.hash(key), alg.wiped([])) else Outer(alg, b, key, ctx.Digest(alg))
  }

  ghost predicate Apart(a: nat, m: nat, b: nat, n: nat) {
    a + m <= b || b + n <= a
  }

  /** None of the addresses lies in the n bytes from a on. */
  ghost predicate Clear(addrs: seq<nat>, a: nat, n: nat) {
    forall i :: 0 <= i < |addrs| ==> addrs[i] < a || addrs[i] >= a + n
  }

  lemma PutElsewhere(m: Memory, a: nat, x: Bytes, b: nat, n: nat)
    requires a + |x| <= |m| && b + n <= |m| && Apart(a, |x|, b, n)
    ensures |Put(m, a, x)| == |m| && Put(m, a, x)[b..b + n] == m[b..b + n]
  {}

  lemma PutHere(m: Memory, a: nat, x: Bytes)
    requires a + |x| <= |m|
    ensures |Put(m, a, x)| == |m| && Put(m, a, x)[a..a + |x|] == x
  {}

  lemma PutClear(m: Memory, a: nat, x: Bytes, addrs: seq<nat>)
    requires a + |x| <= |m| && InMemory(addrs, m) && Clear(addrs, a, |x|)
    ensures InMemory(addrs, Put(m, a, x)) && Gather(Put(m, a, x), addrs) == Gather(m, addrs)
  {
    hide Put;
    PutSize(m, a, x);
    forall i | 0 <= i < |addrs| ensures Put(m, a, x)[addrs[i]] == m[addrs[i]] {
      PutAt(m, a, x, addrs[i]);
    }
  }

  lemma PutSize(m: Memory, a: nat, x: Bytes)
    requires a + |x| <= |m|
    ensures |Put(m, a, x)| == |m|
  {}

  lemma PutAt(m: Memory, a: nat, x: Bytes, c: nat)
    requires a + |x| <= |m| && c < |m| && (c < a || c >= a + |x|)
    ensures Put(m, a, x)[c] == m[c]
  {}

  class Tfm {
    const page: Pos             // PAGE_SIZE
    const block: nat            // cra_blocksize
    const size: nat             // dia_digestsize
    const alg: Algorithm
    const pad: nat              // where dit_hmac_block is

    var mem: Memory
    var ctx: Context

    /** An algorithm, and the memory around it. */
    constructor (page: Pos, block: nat, size: nat, alg: Algorithm, pad: nat, mem: Memory)
      requires size <= block && pad + block <= |mem|
      requires forall m :: |alg.hash(m)| == size && |alg.wiped(m)| == size
      ensures this.mem == mem && this.page == page && this.block == block && this.size == size
      ensures this.alg == alg && this.pad == pad && Valid()
    {
      this.page, this.block, this.size, this.alg, this.pad := page, block, size, alg, pad;
      this.mem, ctx := mem, Context(false, []);
    }

    ghost predicate Valid()
      reads this
    {
      && size <= block && pad + block <= |mem|
      && (forall m {:trigger alg.hash(m)} :: |alg.hash(m)| == size)
      && (forall m {:trigger alg.wiped(m)} :: |alg.wiped(m)| == size)
    }

    /** dia_init */
    method Init()
      modifies this`ctx
      ensures ctx == Context(true, [])
    {
      ctx := Context(true, []);
    }

    function PageStart(pg: nat): nat {
      pg * page
    }

    /** `update` of digest.c: page by page, in order. */
    method Update(sg: seq<Entry>)
      requires ListOk(sg, page) && InMemory(Addresses(sg, page), mem)
      modifies this`ctx
      ensures ctx == old(ctx).(bytes := old(ctx).bytes + Gather(mem, Addresses(sg, page)))
    {
      hide Addresses, ListOk, Gather, Run, PageStart, InMemory;
      ghost var all, m0 := Addresses(sg, page), ctx.bytes;
      var i: nat := 0;
      assert sg[0..] == sg;
      ghost var done: Bytes := [];
      assert all == [] + all;
      while i < |sg|
        invariant i <= |sg| && InMemory(Addresses(sg[i..], page), mem) && ctx == old(ctx).(bytes := m0 + done)
        invariant Gather(mem, all) == done + Gather(mem, Addresses(sg[i..], page))
      {
        EntryFirst(sg, i);
        var e := sg[i];
        ghost var here, later := Run(PageStart(e.page) + e.offset, e.length), Addresses(sg[i + 1..], page);
        GatherSplit(mem, here, later);
        UpdateEntry(e);
        done := done + Gather(mem, here);
        i := i + 1;
      }
      EmptyRest(sg);
    }

    lemma EmptyRest(sg: seq<Entry>)
      ensures InMemory(Addresses(sg[|sg|..], page), mem) && Gather(mem, Addresses(sg[|sg|..], page)) == []
    {}

    lemma EntryFirst(sg: seq<Entry>, i: nat)
      requires i < |sg| && ListOk(sg, page)
      ensures Addresses(sg[i..], page) ==
        Run(PageStart(sg[i].page) + sg[i].offset, sg[i].length) + Addresses(sg[i + 1..], page)
      ensures sg[i].offset < page
    {
      assert sg[i..][0] == sg[i] && sg[i..][1..] == sg[i + 1..];
    }

    lemma GatherSplit(m: Memory, a: seq<nat>, b: seq<nat>)
      requires InMemory(a + b, m)
      ensures InMemory(a, m) && InMemory(b, m) && Gather(m, a + b) == Gather(m, a) + Gather(m, b)
    {
      forall i | 0 <= i < |a| ensures a[i] < |m| {
        assert (a + b)[i] == a[i];
      }
      forall i | 0 <= i < |b| ensures b[i] < |m| {
        assert (a + b)[|a| + i] == b[i];
      }
    }

    /** The bytes of an entry that lie on one page. */
    method UpdatePage(pg: nat, offset: nat, l: nat, ghost base: nat, ghost n: nat, ghost m0: Bytes) returns (bytes: nat)
      requires offset < page && PageStart(pg) + offset == base + n && (l > 0 ==> base + n + l <= |mem|)
      requires base + n <= |mem| || n == 0
      requires ctx.bytes == m0 + (if n == 0 then [] else mem[base..base + n])
      modifies this`ctx
      ensures bytes == Min(l, page - offset) && (l > 0 ==> bytes > 0)
      ensures n + bytes > 0 ==> base + n + bytes <= |mem|
      ensures ctx == old(ctx).(bytes := m0 + (if n + bytes == 0 then [] else mem[base..base + n + bytes]))
    {
      hide PageStart;
      bytes := Min(l, page - offset);
      var p := PageStart(pg) + offset;
      if bytes > 0 {
        assert n > 0 ==> mem[base..base + n] + mem[p..p + bytes] == mem[base..base + n + bytes];
        ctx := ctx.(bytes := ctx.bytes + mem[p..p + bytes]);
      }
    }

    method UpdateEntry(e: Entry)
      requires e.offset < page && InMemory(Run(PageStart(e.page) + e.offset, e.length), mem)
      modifies this`ctx
      ensures ctx == old(ctx).(bytes := old(ctx).bytes + Gather(mem, Run(PageStart(e.page) + e.offset, e.length)))
    {
      hide Run, Gather, PageStart, InMemory;
      ghost var base, m0 := PageStart(e.page) + e.offset, ctx.bytes;
      RunBound(base, e.length);
      var pg, l := e.page, e.length;
      var bytes := UpdatePage(pg, e.offset, l, base, 0, m0);
      NextPage(pg, e.offset, bytes, l);
      ghost var n: nat := bytes;
      pg, l := pg + 1, l - bytes;
      while l > 0
        invariant n + l == e.length && (l > 0 ==> PageStart(pg) == base + n)
        invariant n > 0 ==> base + n <= |mem|
        invariant ctx == old(ctx).(bytes := m0 + (if n == 0 then [] else mem[base..base + n]))
      {
        bytes := UpdatePage(pg, 0, l, base, n, m0);
        NextPage(pg, 0, bytes, l);
        n := n + bytes;
        pg, l := pg + 1, l - bytes;
      }
      WholeRun(base, e.length);
    }

    lemma NextPage(pg: nat, offset: nat, bytes: nat, l: nat)
      requires offset < page && bytes == Min(l, page - offset)
      ensures l > bytes ==> PageStart(pg + 1) == PageStart(pg) + offset + bytes
    {
      assert (pg + 1) * page == pg * page + page;
    }

    lemma RunBound(base: nat, n: nat)
      requires InMemory(Run(base, n), mem)
      ensures n > 0 ==> base + n <= |mem|
    {
      if n > 0 {
        assert Run(base, n)[n - 1] == base + n - 1;
      }
    }

    lemma WholeRun(base: nat, n: nat)
      requires InMemory(Run(base, n), mem)
      ensures Gather(mem, Run(base, n)) == if n == 0 then [] else (RunBound(base, n); mem[base..base + n])
    {
      if n > 0 {
        RunBound(base, n);
        GatherRun(mem, base, n);
      }
    }

    /** dia_final into a buffer; it wipes the context. */
    method Final(out: nat)
      requires Valid() && out + size <= |mem|
      modifies this`mem, this`ctx
      ensures Valid() && |mem| == |old(mem)| && |old(ctx).Digest(alg)| == size
      ensures mem == Put(old(mem), out, old(ctx).Digest(alg)) && ctx == Context(false, [])
    {
      PutSize(mem, out, ctx.Digest(alg));
      mem := Put(mem, out, ctx.Digest(alg));
      ctx := Context(false, []);
    }

    /** hash_key: the key is replaced by its digest, in the buffer it came in. */
    method HashKey(key: nat, keylen: nat)
      requires Valid() && key + keylen <= |mem| && key + size <= |mem|
      modifies this`mem, this`ctx
      ensures Valid() && |mem| == |old(mem)| && |alg.hash(old(mem)[key..key + keylen])| == size
      ensures mem == Put(old(mem), key, alg.hash(old(mem)[key..key + keylen])) && ctx == Context(false, [])
    {
      Init();
      ctx := ctx.(bytes := ctx.bytes + mem[key..key + keylen]);
      assert ctx.bytes == mem[key..key + keylen];
      Final(key);
    }

    /** The block filled up with zeros after the key, then xored byte by byte. */
    method FillPad(k: Bytes, c: bv8) returns (ipad: Bytes)
      requires |k| <= block
      ensures ipad == Padded(k, block, c)
    {
      ipad := k + seq(block - |k|, _ => 0);
      var i: nat := 0;
      ghost var plain := ipad;
      while i < block
        invariant i <= block && |ipad| == block
        invariant forall j :: 0 <= j < i ==> ipad[j] == plain[j] ^ c
        invariant forall j :: i <= j < block ==> ipad[j] == plain[j]
      {
        ipad := ipad[i := ipad[i] ^ c];
        i := i + 1;
      }
    }

    /** The key, padded, goes to the digest as its first block. */
    method StartWith(key: nat, keylen: nat, c: bv8)
      requires Valid() && keylen <= block && key + keylen <= |mem| && Apart(key, keylen, pad, block)
      modifies this`mem, this`ctx
      ensures Valid() && |mem| == |old(mem)| && ctx == Context(true, Padded(old(mem)[key..key + keylen], block, c))
      ensures mem == Put(old(mem), pad, Padded(old(mem)[key..key + keylen], block, c))
    {
      hide Put, Padded;
      var ipad := FillPad(mem[key..key + keylen], c);
      PutHere(mem, pad, ipad);
      mem := Put(mem, pad, ipad);
      Init();
      ctx := ctx.(bytes := ctx.bytes + mem[pad..pad + block]);
    }

    /** Long keys are hashed in place; the length says which form the buffer holds. */
    method Shorten(key: nat, keylen: nat) returns (len: nat)
      requires Valid() && key + keylen <= |mem| && (keylen > block ==> key + size <= |mem|)
      modifies this`mem, this`ctx
      ensures Valid() && |mem| == |old(mem)| && len <= block && key + len <= |mem|
      ensures mem[key..key + len] == ShortKey(alg.hash, block, old(mem)[key..key + keylen])
      ensures keylen <= block ==> len == keylen && mem == old(mem) && ctx == old(ctx)
      ensures keylen > block ==>
        && len == size && |alg.hash(old(mem)[key..key + keylen])| == size
        && mem == Put(old(mem), key, alg.hash(old(mem)[key..key + keylen])) && ctx == Context(false, [])
    {
      len := keylen;
      if keylen > block {
        PutHere(mem, key, alg.hash(mem[key..key + keylen]));
        HashKey(key, keylen);
        len := size;
      }
    }

    /** crypto_hmac_init; the bytes at other addresses stay as they are. */
    method HmacInit(key: nat, keylen: nat, ghost addrs: seq<nat>) returns (len: nat)
      requires Valid() && key + keylen <= |mem| && (keylen > block ==> key + size <= |mem|)
      requires Apart(key, if keylen > block then size else keylen, pad, block)
      requires InMemory(addrs, mem) && (keylen > block ==> Clear(addrs, key, size)) && Clear(addrs, pad, block)
      modifies this`mem, this`ctx
      ensures Valid() && |mem| == |old(mem)| && len <= block && key + len <= |mem|
      ensures len == if keylen > block then size else keylen
      ensures mem[key..key + len] == ShortKey(alg.hash, block, old(mem)[key..key + keylen])
      ensures ctx == Context(true, Padded(ShortKey(alg.hash, block, old(mem)[key..key + keylen]), block, 0x36))
      ensures InMemory(addrs, mem) && Gather(mem, addrs) == Gather(old(mem), addrs)
    {
      hide Put, Padded, Gather, InMemory, Clear;
      len := Shorten(key, keylen);
      ghost var m1 := mem;
      if keylen > block {
        PutClear(old(mem), key, alg.hash(old(mem)[key..key + keylen]), addrs);
      }
      StartWith(key, len, 0x36);
      PutElsewhere(m1, pad, ctx.bytes, key, len);
      PutClear(m1, pad, ctx.bytes, addrs);
    }

    /**
      crypto_hmac_final. A key that is still too long is hashed here, through
      the context that holds the inner digest; what that held is lost.
    */
    method HmacFinal(key: nat, keylen: nat, out: nat) returns (len: nat)
      requires Valid() && key + keylen <= |mem| && (keylen > block ==> key + size <= |mem|) && out + size <= |mem|
      requires var n := if keylen > block then size else keylen;
        Apart(key, n, pad, block) && Apart(key, n, out, size) && Apart(out, size, pad, block)
      modifies this`mem, this`ctx
      ensures Valid() && |mem| == |old(mem)| && len == if keylen > block then size else keylen
      ensures mem[out..out + size] == FinalOf(alg, block, old(mem)[key..key + keylen], old(ctx))
    {
      hide Put, Padded;
      len := Shorten(key, keylen);
      ghost var m0, inner := mem, ctx.Digest(alg);
      Final(out);
      ghost var m1 := mem;
      PutElsewhere(m0, out, inner, key, len);
      PutHere(m0, out, inner);
      StartWith(key, len, 0x5c);
      PutElsewhere(m1, pad, ctx.bytes, out, size);
      ctx := ctx.(bytes := ctx.bytes + mem[out..out + size]);
      ghost var m2, outer := mem, ctx.Digest(alg);
      Final(out);
      PutHere(m2, out, outer);
    }

    /** crypto_hmac: the code of RFC 2104 over the bytes of the list, for keys of any length. */
    method Hmac(key: nat, keylen: nat, sg: seq<Entry>, out: nat) returns (len: nat)
      requires Valid() && key + keylen <= |mem| && (keylen > block ==> key + size <= |mem|) && out + size <= |mem|
      requires ListOk(sg, page) && InMemory(Addresses(sg, page), mem)
      requires var n := if keylen > block then size else keylen;
        && Apart(key, n, pad, block) && Apart(key, n, out, size) && Apart(out, size, pad, block)
        && (keylen > block ==> Clear(Addresses(sg, page), key, size)) && Clear(Addresses(sg, page), pad, block)
      modifies this`mem, this`ctx
      ensures Valid() && |mem| == |old(mem)|
      ensures mem[out..out + size] ==
        HmacOf(alg.hash, block, old(mem)[key..key + keylen], Gather(old(mem), Addresses(sg, page)))
      ensures len == if keylen > block then size else keylen
    {
      hide Put, Padded, Gather, InMemory, Clear, ShortKey;
      ghost var text := Gather(mem, Addresses(sg, page));
      len := HmacInit(key, keylen, Addresses(sg, page));
      Update(sg);
      len := HmacFinal(key, len, out);
    }
  }

  // ------------------------------------------------------------------
  // Keys that are too long for crypto_hmac_final
  // ------------------------------------------------------------------

  /** Whatever the inner digest, the outer one is the same. */
  ghost predicate Indifferent(alg: Algorithm, b: nat, key: Bytes) {
    forall text: Bytes :: Outer(alg, b, key, alg.hash(text)) == Outer(alg, b, key, alg.wiped([]))
  }

  /**
    crypto_hmac_final gives the outer digest of section 2 of RFC 2104 for
    every message if and only if the key is no longer than a block by then,
    or the outer digest does not depend on the message at all.
  */
  lemma FinalIsOuter(alg: Algorithm, b: nat, key: Bytes)
    ensures (forall text: Bytes :: FinalOf(alg, b, key, Context(true, text))
                                == Outer(alg, b, ShortKey(alg.hash, b, key), alg.hash(text)))
      <==> |key| <= b || Indifferent(alg, b, alg.hash(key))
  {
    forall text: Bytes ensures Context(true, text).Digest(alg) == alg.hash(text) {}
    if |key| > b && !Indifferent(alg, b, alg.hash(key)) {
      var text: Bytes :| Outer(alg, b, alg.hash(key), alg.hash(text)) != Outer(alg, b, alg.hash(key), alg.wiped([]));
      assert FinalOf(alg, b, key, Context(true, text)) != Outer(alg, b, ShortKey(alg.hash, b, key), alg.hash(text));
    }
  }

  /** With a digest that tells two messages apart, it is right for every message exactly if the key is short. */
  lemma FinalNeedsShortKey(alg: Algorithm, b: nat, key: Bytes, t: Bytes, u: Bytes)
    requires Outer(alg, b, alg.hash(key), alg.hash(t)) != Outer(alg, b, alg.hash(key), alg.hash(u))
    ensures (forall text: Bytes :: FinalOf(alg, b, key, Context(true, text))
                                == Outer(alg, b, ShortKey(alg.hash, b, key), alg.hash(text)))
      <==> |key| <= b
  {
    FinalIsOuter(alg, b, key);
  }

  /** A digest of one byte: the last one of the message. */
  function LastByte(m: Bytes): Bytes {
    [if m == [] then 0 else m[|m| - 1]]
  }

  const LAST := Algorithm(LastByte, LastByte)

  /** A key of two bytes, blocks of one: the messages 5 and 6 have different codes, but get the same. */
  method LongKeyExample() returns (a: Bytes, b: Bytes)
    ensures a == b == FinalOf(LAST, 1, [1, 1], Context(true, [5])) == FinalOf(LAST, 1, [1, 1], Context(true, [6]))
    ensures Outer(LAST, 1, LastByte([1, 1]), LastByte([5])) != Outer(LAST, 1, LastByte([1, 1]), LastByte([6]))
  {
    a := FinalExample(5);
    b := FinalExample(6);
  }

  method FinalExample(text: bv8) returns (code: Bytes)
    ensures code == FinalOf(LAST, 1, [1, 1], Context(true, [text]))
  {
    var tfm := new Tfm(4096, 1, 1, LAST, 3, [1, 1, 0, 0, text]);
    tfm.Init();
    tfm.Update([Entry(0, 4, 1)]);
    var len := tfm.HmacFinal(0, 2, 2);
    code := tfm.mem[2..3];
  }
}
