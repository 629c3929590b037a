/** crypt: ECB and CBC over scatterlists, against the same modes over a flat string of bytes. */
module CipherModes {
  import opened Common

  type Bytes = seq<bv8>

  function XorBytes(a: Bytes, b: Bytes): (r: Bytes)
    requires |a| == |b|
    ensures |r| == |a|
  {
    seq(|a|, i requires 0 <= i < |a| => a[i] ^ b[i])
  }

  lemma XorTwice(a: Bytes, b: Bytes)
    requires |a| == |b|
    ensures XorBytes(XorBytes(a, b), b) == a && XorBytes(a, XorBytes(a, b)) == b && XorBytes(a, b) == XorBytes(b, a)
  {
    forall i | 0 <= i < |a| ensures (a[i] ^ b[i]) ^ b[i] == a[i] && a[i] ^ (a[i] ^ b[i]) == b[i] && a[i] ^ b[i] == b[i] ^ a[i] {
      XorByte(a[i], b[i]);
    }
  }

  lemma XorByte(x: bv8, y: bv8)
    ensures (x ^ y) ^ y == x && x ^ (x ^ y) == y && x ^ y == y ^ x
  {}

  /** Sections 6.1 and 6.2 of NIST SP 800-38A. */
  datatype Mode = Ecb | CbcEncrypt | CbcDecrypt

  ghost predicate BlockFn(fn: Bytes -> Bytes, b: Pos) {
    forall x :: |x| == b ==> |fn(x)| == b
  }

  function OneBlock(mode: Mode, fn: Bytes -> Bytes, iv: Bytes, x: Bytes): (r: (Bytes, Bytes))
    requires |x| == |iv|
  {
    match mode
    case Ecb => (fn(x), iv)
    case CbcEncrypt => (fn(XorBytes(iv, x)), fn(XorBytes(iv, x)))
    case CbcDecrypt => (if |fn(x)| == |iv| then XorBytes(fn(x), iv) else [], x)
  }

  /** The mode over a whole string: the output and the IV it leaves. */
  function Flat(mode: Mode, fn: Bytes -> Bytes, iv: Bytes, data: Bytes): (Bytes, Bytes)
    decreases |data|
  {
    if |iv| == 0 || |data| < |iv| then ([], iv)
    else
      var (out, next) := OneBlock(mode, fn, iv, data[..|iv|]);
      if |next| != |iv| then (out, next)
      else
        var rest := Flat(mode, fn, next, data[|iv|..]);
        (out + rest.0, rest.1)
  }

  lemma OneBlockSize(mode: Mode, fn: Bytes -> Bytes, iv: Bytes, x: Bytes, b: Pos)
    requires BlockFn(fn, b) && |iv| == b && |x| == b
    ensures |OneBlock(mode, fn, iv, x).0| == b && |OneBlock(mode, fn, iv, x).1| == b
  {}

  lemma FlatOne(mode: Mode, fn: Bytes -> Bytes, iv: Bytes, x: Bytes, b: Pos)
    requires BlockFn(fn, b) && |iv| == b && |x| == b
    ensures Flat(mode, fn, iv, x) == OneBlock(mode, fn, iv, x)
  {
    hide OneBlock;
    OneBlockSize(mode, fn, iv, x, b);
    assert x[..b] == x && x[b..] == [];
    var (out, next) := OneBlock(mode, fn, iv, x);
    assert Flat(mode, fn, next, []) == ([], next);
    assert out + [] == out;
  }

  lemma FlatUnfolds(mode: Mode, fn: Bytes -> Bytes, iv: Bytes, data: Bytes, b: Pos)
    requires BlockFn(fn, b) && |iv| == b && |data| >= b
    ensures var (out, next) := OneBlock(mode, fn, iv, data[..b]);
      Flat(mode, fn, iv, data) == (out + Flat(mode, fn, next, data[b..]).0, Flat(mode, fn, next, data[b..]).1)
  {
    hide OneBlock;
    OneBlockSize(mode, fn, iv, data[..b], b);
  }

  /** Two calls, the second with the IV the first left, are one call on the joined data. */
  lemma {:induction false} FlatConcat(mode: Mode, fn: Bytes -> Bytes, iv: Bytes, x: Bytes, y: Bytes, b: Pos)
    requires BlockFn(fn, b) && |iv| == b && |x| % b == 0
    ensures var (o1, iv1) := Flat(mode, fn, iv, x);
      |o1| == |x| && |iv1| == b && Flat(mode, fn, iv, x + y) == (o1 + Flat(mode, fn, iv1, y).0, Flat(mode, fn, iv1, y).1)
    decreases |x|
  {
    hide OneBlock, Flat;
    if x == [] {
      assert x + y == y;
      FlatEmpty(mode, fn, iv);
      assert [] + Flat(mode, fn, iv, y).0 == Flat(mode, fn, iv, y).0;
    } else {
      WholeBlocks(|x|, b);
      var (out, next) := OneBlock(mode, fn, iv, x[..b]);
      OneBlockSize(mode, fn, iv, x[..b], b);
      assert (x + y)[..b] == x[..b] && (x + y)[b..] == x[b..] + y;
      FlatConcat(mode, fn, next, x[b..], y, b);
      var (o1, iv1) := Flat(mode, fn, next, x[b..]);
      var rest := Flat(mode, fn, iv1, y);
      FlatUnfolds(mode, fn, iv, x, b);
      FlatUnfolds(mode, fn, iv, x + y, b);
      assert out + (o1 + rest.0) == (out + o1) + rest.0;
    }
  }

  lemma FlatEmpty(mode: Mode, fn: Bytes -> Bytes, iv: Bytes)
    ensures Flat(mode, fn, iv, []) == ([], iv)
  {}

  lemma WholeBlocks(n: nat, b: Pos)
    requires n % b == 0 && n > 0
    ensures n >= b && (n - b) % b == 0
  {
    var q := n / b;
    assert n == q * b;
    if q < 1 {
      MulMonotone(q, 0, b);
    }
    MulMonotone(1, q, b);
    assert n - b == (q - 1) * b;
    DivModUnique(n - b, b, q - 1, 0);
  }

  ghost predicate Undoes(dec: Bytes -> Bytes, enc: Bytes -> Bytes, b: Pos) {
    forall x :: |x| == b ==> dec(enc(x)) == x
  }

  /** Decryption with the same IV restores the plaintext, and leaves the same IV. */
  lemma {:induction false} CbcInverts(enc: Bytes -> Bytes, dec: Bytes -> Bytes, iv: Bytes, data: Bytes, b: Pos)
    requires BlockFn(enc, b) && BlockFn(dec, b) && Undoes(dec, enc, b) && |iv| == b && |data| % b == 0
    ensures var (c, iv1) := Flat(CbcEncrypt, enc, iv, data); Flat(CbcDecrypt, dec, iv, c) == (data, iv1)
    decreases |data|
  {
    hide Flat;
    if data == [] {
      FlatEmpty(CbcEncrypt, enc, iv);
      FlatEmpty(CbcDecrypt, dec, iv);
    } else {
      WholeBlocks(|data|, b);
      var x, more := data[..b], data[b..];
      var o := enc(XorBytes(iv, x));
      CbcInverts(enc, dec, o, more, b);
      FlatUnfolds(CbcEncrypt, enc, iv, data, b);
      var rest := Flat(CbcEncrypt, enc, o, more).0;
      assert (o + rest)[..b] == o && (o + rest)[b..] == rest;
      FlatUnfolds(CbcDecrypt, dec, iv, o + rest, b);
      XorTwice(iv, x);
      XorTwice(x, iv);
      assert x + more == data;
    }
  }

  lemma {:induction false} EcbInverts(enc: Bytes -> Bytes, dec: Bytes -> Bytes, iv: Bytes, data: Bytes, b: Pos)
    requires BlockFn(enc, b) && BlockFn(dec, b) && Undoes(dec, enc, b) && |iv| == b && |data| % b == 0
    ensures Flat(Ecb, dec, iv, Flat(Ecb, enc, iv, data).0).0 == data
    decreases |data|
  {
    hide Flat;
    if data == [] {
      FlatEmpty(Ecb, enc, iv);
      FlatEmpty(Ecb, dec, iv);
    } else {
      WholeBlocks(|data|, b);
      var x, more := data[..b], data[b..];
      EcbInverts(enc, dec, iv, more, b);
      FlatUnfolds(Ecb, enc, iv, data, b);
      var rest := Flat(Ecb, enc, iv, more).0;
      assert (enc(x) + rest)[..b] == enc(x) && (enc(x) + rest)[b..] == rest;
      FlatUnfolds(Ecb, dec, iv, enc(x) + rest, b);
      assert x + more == data;
    }
  }
}

module CipherEngine {
  import opened Common
  import opened Scatterwalk
  import opened CipherModes

  /** Where a block is read or written: in the mapped page, or in one of the two local buffers. */
  datatype Ptr = InPage(addr: nat) | TmpSrc | TmpDst

  /** Two lists of addresses are the same, or have none in common. */
  ghost predicate SameOrApart(a: seq<nat>, c: seq<nat>) {
    a == c || forall i :: 0 <= i < |a| ==> a[i] !in c
  }

  /** What a call needs of its lists. */
  ghost predicate Fit(mem: Memory, size: Pos, src: seq<Entry>, dst: seq<Entry>, n: nat) {
    && ListOk(src, size) && ListOk(dst, size)
    && n <= |Addresses(src, size)| && n <= |Addresses(dst, size)|
    && InMemory(Addresses(src, size)[..n], mem) && InMemory(Addresses(dst, size)[..n], mem)
    && Distinct(Addresses(dst, size)[..n])
    && SameOrApart(Addresses(src, size)[..n], Addresses(dst, size)[..n])
  }

  lemma GatherMore(mem: Memory, a: seq<nat>, b: seq<nat>)
    requires InMemory(a + b, mem)
    ensures InMemory(a, mem) && InMemory(b, mem) && Gather(mem, a + b) == Gather(mem, a) + Gather(mem, b)
  {
    forall i | 0 <= i < |a| ensures a[i] < |mem| {
      assert (a + b)[i] == a[i];
    }
    forall i | 0 <= i < |b| ensures b[i] < |mem| {
      assert (a + b)[|a| + i] == b[i];
    }
  }

  lemma SplitAt(s: seq<nat>, m: nat, n: nat)
    requires m <= n <= |s|
    ensures s[..m] + s[m..][..n - m] == s[..n] && s[m..][n - m..] == s[n..]
  {}

  ghost predicate Whole(n: nat, b: Pos) {
    n % b == 0
  }

  lemma NextBlock(pos: nat, left: nat, b: Pos)
    requires Whole(pos, b) && Whole(left, b) && left > 0
    ensures left >= b && Whole(left - b, b) && Whole(pos + b, b)
  {
    WholeBlocks(left, b);
    assert pos == pos / b * b;
    assert pos + b == (pos / b + 1) * b;
    DivModUnique(pos + b, b, pos / b + 1, 0);
  }

  lemma RunsMeet(p: nat, q: nat, b: nat)
    requires p <= q < p + b
    ensures Run(p, b)[q - p] in Run(q, b) && Run(q, b)[0] in Run(p, b)
  {
    assert Run(q, b)[0] == q && Run(p, b)[q - p] == q;
  }

  class Engine {
    const size: Pos      // PAGE_CACHE_SIZE
    const bsize: Pos     // the cipher's block size

    var mem: Memory
    var tmpSrc: Bytes
    var tmpDst: Bytes
    var iv: Bytes

    constructor (size: Pos, bsize: Pos, mem: Memory, iv: Bytes)
      requires |iv| == bsize
      ensures this.size == size && this.bsize == bsize && this.mem == mem && this.iv == iv && Valid()
    {
      this.size, this.bsize, this.mem, this.iv := size, bsize, mem, iv;
      tmpSrc, tmpDst := seq(bsize, _ => 0), seq(bsize, _ => 0);
    }

    ghost predicate Valid()
      reads this
    {
      |tmpSrc| == bsize && |tmpDst| == bsize && |iv| == bsize
    }

    predicate PtrOk(p: Ptr)
      reads this
    {
      p.InPage? ==> p.addr + bsize <= |mem|
    }

    function Load(p: Ptr): (b: Bytes)
      requires Valid() && PtrOk(p)
      reads this
      ensures |b| == bsize
    {
      match p
      case InPage(a) => mem[a..a + bsize]
      case TmpSrc => tmpSrc
      case TmpDst => tmpDst
    }

    method Store(p: Ptr, b: Bytes)
      requires Valid() && PtrOk(p) && |b| == bsize
      modifies this`mem, this`tmpSrc, this`tmpDst
      ensures Valid() && PtrOk(p) && Load(p) == b
      ensures mem == if p.InPage? then Put(old(mem), p.addr, b) else old(mem)
      ensures tmpSrc == if p.TmpSrc? then b else old(tmpSrc)
      ensures tmpDst == if p.TmpDst? then b else old(tmpDst)
    {
      match p
      case InPage(a) => mem := Put(mem, a, b);
      case TmpSrc => tmpSrc := b;
      case TmpDst => tmpDst := b;
    }

    /** scatterwalk_whichbuf */
    function WhichBuf(w: Walk, scratch: Ptr): Ptr {
      if bsize <= w.lenPage && w.offset % size + bsize <= size then InPage(Place(w, size)) else scratch
    }

    /** scatterwalk_copychunks from the list into a buffer. */
    method CopyIn(w0: Walk, sg: seq<Entry>, n0: nat) returns (w: Walk, bytes: Bytes)
      requires WalkOk(w0, sg, size) && n0 <= |Rest(w0, sg, size)| && InMemory(Rest(w0, sg, size)[..n0], mem)
      ensures WalkOk(w, sg, size) && Rest(w, sg, size) == Rest(w0, sg, size)[n0..]
      ensures bytes == Gather(mem, Rest(w0, sg, size)[..n0])
    {
      hide ListOk, Addresses, Rest, Run;
      ghost var all := Rest(w0, sg, size);
      bytes, w := [], w0;
      var n: nat := n0;
      while n > w.lenPage
        invariant n <= n0 && WalkOk(w, sg, size) && Rest(w, sg, size) == all[n0 - n..]
        invariant InMemory(all[..n0 - n], mem) && bytes == Gather(mem, all[..n0 - n])
        decreases |sg| - w.entry, w.lenSegment, w.offset
      {
        ghost var m := n0 - n;
        bytes := TakeIn(w, sg, w.lenPage, all, m, n0, bytes);
        Forward(w, sg, all, m);
        n := n - w.lenPage;
        w := PageDone(w, sg, size);
      }
      bytes := TakeIn(w, sg, n, all, n0 - n, n0, bytes);
      AdvanceIs(w, sg, size, n);
      SplitAt(all, n0 - n, n0);
      w := Advance(w, n);
    }

    lemma Forward(w: Walk, sg: seq<Entry>, all: seq<nat>, m: nat)
      requires WalkOk(w, sg, size) && m <= |all| && Rest(w, sg, size) == all[m..] && |all[m..]| > w.lenPage
      ensures w.lenPage <= w.lenSegment && (w.lenPage == w.lenSegment ==> w.entry + 1 < |sg|)
      ensures var w' := PageDone(w, sg, size);
        && WalkOk(w', sg, size) && Rest(w', sg, size) == all[m + w.lenPage..]
        && w'.entry >= w.entry
        && (w'.entry == w.entry ==> w'.lenSegment < w.lenSegment || (w'.lenSegment == w.lenSegment && w'.offset < w.offset))
    {
      PageDoneIs(w, sg, size);
    }

    /** memcpy of n bytes that lie on the current page. */
    method TakeIn(w: Walk, sg: seq<Entry>, n: nat, ghost all: seq<nat>, ghost m: nat, ghost n0: nat, bytes: Bytes) returns (r: Bytes)
      requires WalkOk(w, sg, size) && n <= w.lenPage && m + n <= n0 <= |all| && Rest(w, sg, size) == all[m..]
      requires InMemory(all[..n0], mem) && InMemory(all[..m], mem) && bytes == Gather(mem, all[..m])
      ensures InMemory(all[..m + n], mem) && r == Gather(mem, all[..m + n])
    {
      hide WalkOk, Addresses, Rest, Run;
      Ahead(w, sg, size, n);
      SplitAt(all, m, m + n);
      InMemoryPart(all, m, n, n0);
      GatherMore(mem, all[..m], all[m..][..n]);
      RunInMemory(all[m..][..n], Place(w, size), n, mem);
      if n > 0 {
        GatherRun(mem, Place(w, size), n);
        r := bytes + mem[Place(w, size)..Place(w, size) + n];
      } else {
        r := bytes;
      }
    }

    lemma InMemoryPart(all: seq<nat>, m: nat, n: nat, n0: nat)
      requires m + n <= n0 <= |all| && InMemory(all[..n0], mem)
      ensures InMemory(all[..m + n], mem) && InMemory(all[m..][..n], mem)
      ensures all[m..][..n][..n] == all[m..][..n]
    {
      forall i | 0 <= i < m + n ensures all[i] < |mem| {
        assert all[..n0][i] == all[i];
      }
    }

    /** memcpy of n bytes to the current page. */
    method PutOut(w: Walk, sg: seq<Entry>, n: nat, buf: Bytes, m: nat, ghost all: seq<nat>, ghost mem0: Memory)
      requires WalkOk(w, sg, size) && n <= w.lenPage && m + n <= |buf| <= |all| && Rest(w, sg, size) == all[m..]
      requires InMemory(all[..|buf|], mem) && Distinct(all[..|buf|]) && Stored(mem0, mem, all[..m], buf[..m])
      modifies this`mem
      ensures Stored(mem0, mem, all[..m + n], buf[..m + n])
    {
      hide WalkOk, Addresses, Rest, Run, Stored, Distinct;
      ghost var mem1 := mem;
      Ahead(w, sg, size, n);
      SplitAt(all, m, m + n);
      InMemoryPart(all, m, n, |buf|);
      RunInMemory(all[m..][..n], Place(w, size), n, mem);
      DistinctPart(all, m + n, |buf|);
      assert buf[..m] + buf[m..m + n] == buf[..m + n];
      if n > 0 {
        PutRun(mem, Place(w, size), buf[m..m + n]);
        mem := Put(mem, Place(w, size), buf[m..m + n]);
        StoredMore(mem0, mem1, mem, all[..m], all[m..][..n], buf[..m], buf[m..m + n]);
      }
    }

    lemma DistinctPart(all: seq<nat>, m: nat, n: nat)
      requires m <= n <= |all| && Distinct(all[..n])
      ensures Distinct(all[..m])
    {
      forall i, j | 0 <= i < j < m ensures all[..m][i] != all[..m][j] {
        assert all[..n][i] != all[..n][j];
      }
    }

    lemma StoredInMemory(mem0: Memory, mem1: Memory, a: seq<nat>, x: Bytes, b: seq<nat>)
      requires Stored(mem0, mem1, a, x) && InMemory(b, mem0)
      ensures InMemory(b, mem1)
    {}

    /** scatterwalk_copychunks from a buffer out to the list. */
    method CopyOut(w0: Walk, sg: seq<Entry>, buf: Bytes) returns (w: Walk)
      requires WalkOk(w0, sg, size) && |buf| <= |Rest(w0, sg, size)|
      requires InMemory(Rest(w0, sg, size)[..|buf|], mem) && Distinct(Rest(w0, sg, size)[..|buf|])
      modifies this`mem
      ensures WalkOk(w, sg, size) && Rest(w, sg, size) == Rest(w0, sg, size)[|buf|..]
      ensures Stored(old(mem), mem, Rest(w0, sg, size)[..|buf|], buf)
    {
      hide ListOk, Addresses, Rest, Run, Stored, Distinct;
      ghost var all, mem0 := Rest(w0, sg, size), mem;
      w := w0;
      var m: nat := 0;
      StoredNothing(mem);
      assert all[..0] == [] && buf[..0] == [];
      while |buf| - m > w.lenPage
        invariant m <= |buf| && WalkOk(w, sg, size) && Rest(w, sg, size) == all[m..]
        invariant Stored(mem0, mem, all[..m], buf[..m])
        decreases |sg| - w.entry, w.lenSegment, w.offset
      {
        StoredInMemory(mem0, mem, all[..m], buf[..m], all[..|buf|]);
        PutOut(w, sg, w.lenPage, buf, m, all, mem0);
        Forward(w, sg, all, m);
        m := m + w.lenPage;
        w := PageDone(w, sg, size);
      }
      StoredInMemory(mem0, mem, all[..m], buf[..m], all[..|buf|]);
      PutOut(w, sg, |buf| - m, buf, m, all, mem0);
      AdvanceIs(w, sg, size, |buf| - m);
      SplitAt(all, m, |buf|);
      assert buf[..|buf|] == buf;
      w := Advance(w, |buf| - m);
    }

    /** The two places do not overlap. */
    ghost predicate Separate(p: Ptr, q: Ptr) {
      if p.InPage? && q.InPage? then p.addr + bsize <= q.addr || q.addr + bsize <= p.addr else p != q
    }

    lemma LoadElsewhere(m: Memory, a: nat, b: Bytes, c: nat)
      requires |b| == bsize && a + bsize <= |m| && c + bsize <= |m| && (a + bsize <= c || c + bsize <= a)
      ensures Put(m, a, b)[c..c + bsize] == m[c..c + bsize]
    {}

    lemma PutSize(m: Memory, a: nat, b: Bytes)
      requires a + |b| <= |m|
      ensures |Put(m, a, b)| == |m|
    {}

    lemma PutTwice(m: Memory, a: nat, b: Bytes, c: Bytes)
      requires |b| == bsize && |c| == bsize && a + bsize <= |m|
      ensures |Put(m, a, b)| == |m| && Put(Put(m, a, b), a, c) == Put(m, a, c)
    {}

    /** cbc_process, decrypting into a place that does not overlap the source. */
    method DecryptApart(fn: Bytes -> Bytes, dst: Ptr, src: Ptr)
      requires Valid() && PtrOk(dst) && PtrOk(src) && BlockFn(fn, bsize) && !dst.TmpSrc? && Separate(dst, src)
      modifies this`mem, this`tmpSrc, this`tmpDst, this`iv
      ensures Valid() && PtrOk(dst)
      ensures var x := old(Load(src));
        && |fn(x)| == bsize && iv == x && Load(dst) == XorBytes(fn(x), old(iv))
        && mem == if dst.InPage? then Put(old(mem), dst.addr, XorBytes(fn(x), old(iv))) else old(mem)
    {
      hide Put;
      ghost var m, x := mem, Load(src);
      var y := fn(Load(src));
      Store(dst, y);
      if dst.InPage? {
        PutTwice(m, dst.addr, y, XorBytes(y, iv));
        PutSize(m, dst.addr, y);
        PutSize(m, dst.addr, XorBytes(y, iv));
        if src.InPage? {
          LoadElsewhere(m, dst.addr, y, src.addr);
          LoadElsewhere(m, dst.addr, XorBytes(y, iv), src.addr);
        }
      }
      Store(dst, XorBytes(Load(dst), iv));
      iv := Load(src);
    }

    /** ecb_process or cbc_process on one block. */
    method Process(mode: Mode, fn: Bytes -> Bytes, dst: Ptr, src: Ptr, inPlace: bool)
      requires Valid() && PtrOk(dst) && PtrOk(src) && BlockFn(fn, bsize) && !dst.TmpSrc?
      requires mode.CbcDecrypt? && !inPlace ==> Separate(dst, src)
      modifies this`mem, this`tmpSrc, this`tmpDst, this`iv
      ensures Valid() && PtrOk(dst)
      ensures var (out, iv') := OneBlock(mode, fn, old(iv), old(Load(src)));
        && |out| == bsize && iv == iv' && Load(dst) == out
        && mem == if dst.InPage? then Put(old(mem), dst.addr, out) else old(mem)
    {
      hide Put;
      OneBlockSize(mode, fn, iv, Load(src), bsize);
      match mode
      case Ecb =>
        Store(dst, fn(Load(src)));
      case CbcEncrypt =>
        iv := XorBytes(iv, Load(src));
        Store(dst, fn(iv));
        iv := Load(dst);
      case CbcDecrypt =>
        if inPlace {
          var buf := fn(Load(src));
          buf := XorBytes(buf, iv);
          iv := Load(src);
          Store(dst, buf);
        } else {
          DecryptApart(fn, dst, src);
        }
    }

    /** A block that is used in place is the next block of the list. */
    lemma DirectIs(w: Walk, sg: seq<Entry>, scratch: Ptr)
      requires WalkOk(w, sg, size) && WhichBuf(w, scratch).InPage? && !scratch.InPage?
      requires InMemory(Rest(w, sg, size)[..Min(bsize, |Rest(w, sg, size)|)], mem)
      ensures bsize <= w.lenPage && bsize <= |Rest(w, sg, size)| && WhichBuf(w, scratch) == InPage(Place(w, size))
      ensures Rest(w, sg, size)[..bsize] == Run(Place(w, size), bsize) && Place(w, size) + bsize <= |mem|
      ensures Gather(mem, Rest(w, sg, size)[..bsize]) == mem[Place(w, size)..Place(w, size) + bsize]
      ensures w.offset < size
    {
      hide Addresses, Rest, Run;
      Ahead(w, sg, size, bsize);
      RunInMemory(Rest(w, sg, size)[..bsize], Place(w, size), bsize, mem);
      GatherRun(mem, Place(w, size), bsize);
    }

    lemma NotSameIsSeparate(wi: Walk, wo: Walk)
      requires wi.offset < size && wo.offset < size
      requires SameOrApart(Run(Place(wi, size), bsize), Run(Place(wo, size), bsize))
      requires !(wi.page == wo.page && wi.offset == wo.offset)
      ensures Separate(InPage(Place(wo, size)), InPage(Place(wi, size)))
    {
      var a, c := Run(Place(wi, size), bsize), Run(Place(wo, size), bsize);
      DivModUnique(Place(wi, size), size, wi.page, wi.offset);
      DivModUnique(Place(wo, size), size, wo.page, wo.offset);
      var p, q := Place(wi, size), Place(wo, size);
      assert a[0] == p && c[0] == q;
      if p <= q < p + bsize {
        RunsMeet(p, q, bsize);
      } else if q <= p < q + bsize {
        RunsMeet(q, p, bsize);
      }
    }

    /** The bytes of the next block of the list, in place or in the local buffer. */
    method Fetch(wi: Walk, src: seq<Entry>, p: Ptr) returns (w: Walk)
      requires Valid() && WalkOk(wi, src, size) && bsize <= |Rest(wi, src, size)| && p == WhichBuf(wi, TmpSrc)
      requires InMemory(Rest(wi, src, size)[..bsize], mem)
      modifies this`tmpSrc
      ensures Valid() && PtrOk(p) && Load(p) == Gather(mem, Rest(wi, src, size)[..bsize])
      ensures WalkOk(w, src, size) && Rest(w, src, size) == Rest(wi, src, size)[bsize..]
    {
      hide Addresses, Rest, Run;
      if p.TmpSrc? {
        var bytes;
        w, bytes := CopyIn(wi, src, bsize);
        tmpSrc := bytes;
      } else {
        DirectIs(wi, src, TmpSrc);
        AdvanceIs(wi, src, size, bsize);
        w := Advance(wi, bsize);
      }
    }

    /** One turn of crypt's loop. */
    method CryptBlock(mode: Mode, fn: Bytes -> Bytes, wi: Walk, wo: Walk, src: seq<Entry>, dst: seq<Entry>, more: bool)
      returns (wi': Walk, wo': Walk)
      requires Valid() && BlockFn(fn, bsize) && WalkOk(wi, src, size) && WalkOk(wo, dst, size)
      requires bsize <= |Rest(wi, src, size)| && bsize <= |Rest(wo, dst, size)|
      requires more ==> bsize < |Rest(wi, src, size)| && bsize < |Rest(wo, dst, size)|
      requires InMemory(Rest(wi, src, size)[..bsize], mem) && InMemory(Rest(wo, dst, size)[..bsize], mem)
      requires Distinct(Rest(wo, dst, size)[..bsize])
      requires SameOrApart(Rest(wi, src, size)[..bsize], Rest(wo, dst, size)[..bsize])
      modifies this`mem, this`tmpSrc, this`tmpDst, this`iv
      ensures Valid() && WalkOk(wi', src, size) && WalkOk(wo', dst, size)
      ensures Rest(wi', src, size) == Rest(wi, src, size)[bsize..] && Rest(wo', dst, size) == Rest(wo, dst, size)[bsize..]
      ensures var (out, iv') := OneBlock(mode, fn, old(iv), Gather(old(mem), Rest(wi, src, size)[..bsize]));
        |out| == bsize && iv == iv' && Stored(old(mem), mem, Rest(wo, dst, size)[..bsize], out)
    {
      hide Addresses, Rest, Run, Stored, OneBlock, ListOk, Distinct, SameOrApart;
      ghost var a, c := Rest(wi, src, size)[..bsize], Rest(wo, dst, size)[..bsize];
      var srcP, dstP := WhichBuf(wi, TmpSrc), WhichBuf(wo, TmpDst);
      var inPlace := wi.page == wo.page && wi.offset == wo.offset && srcP.InPage? && dstP.InPage?;
      if srcP.InPage? {
        DirectIs(wi, src, TmpSrc);
      }
      if dstP.InPage? {
        DirectIs(wo, dst, TmpDst);
        AdvanceIs(wo, dst, size, bsize);
        if srcP.InPage? && !inPlace {
          NotSameIsSeparate(wi, wo);
        }
      }
      wi' := Fetch(wi, src, srcP);
      ghost var mem0 := mem;
      Process(mode, fn, dstP, srcP, inPlace);
      DoneIs(wi', src, size, more);
      wi' := Done(wi', src, size, more);
      if dstP.TmpDst? {
        wo' := CopyOut(wo, dst, tmpDst);
      } else {
        PutRun(mem0, Place(wo, size), Load(dstP));
        wo' := Advance(wo, bsize);
      }
      DoneIs(wo', dst, size, more);
      wo' := Done(wo', dst, size, more);
    }

    /** How far crypt has got: the first `pos` bytes are done, and the rest of the source is as it was. */
    ghost predicate Underway(mode: Mode, fn: Bytes -> Bytes, mem0: Memory, iv0: Bytes, a: seq<nat>, c: seq<nat>, pos: nat)
      reads this
    {
      && |a| == |c| && pos <= |a| && InMemory(a, mem0) && InMemory(c, mem0)
      && var (out, iv1) := Flat(mode, fn, iv0, Gather(mem0, a)[..pos]);
      iv == iv1 && Stored(mem0, mem, c[..pos], out)
    }

    /** The next block has not been written over yet. */
    lemma Untouched(mem0: Memory, mem1: Memory, a: seq<nat>, c: seq<nat>, pos: nat, out: Bytes)
      requires |a| == |c| && pos + bsize <= |a| && InMemory(a, mem0) && InMemory(c, mem0)
      requires Distinct(c) && SameOrApart(a, c)
      requires Stored(mem0, mem1, c[..pos], out)
      ensures InMemory(a[pos..pos + bsize], mem1) && InMemory(c[pos..pos + bsize], mem1)
      ensures Gather(mem1, a[pos..pos + bsize]) == Gather(mem0, a)[pos..pos + bsize]
      ensures Distinct(c[pos..pos + bsize]) && SameOrApart(a[pos..pos + bsize], c[pos..pos + bsize])
    {
      var b := a[pos..pos + bsize];
      forall i | 0 <= i < |b| ensures b[i] !in c[..pos] {
        assert b[i] == a[pos + i];
        forall j | 0 <= j < pos ensures c[..pos][j] != b[i] {
          assert c[j] in c;
        }
      }
      GatherElsewhere(mem0, mem1, c[..pos], out, b);
      assert Gather(mem0, b) == Gather(mem0, a)[pos..pos + bsize];
    }

    lemma Onward(mode: Mode, fn: Bytes -> Bytes, mem0: Memory, mem1: Memory, mem2: Memory, iv0: Bytes, iv1: Bytes,
                 a: seq<nat>, c: seq<nat>, pos: nat, out: Bytes)
      requires BlockFn(fn, bsize) && |iv0| == bsize && |iv1| == bsize && pos % bsize == 0
      requires |a| == |c| && pos + bsize <= |a| && InMemory(a, mem0) && Distinct(c)
      requires Flat(mode, fn, iv0, Gather(mem0, a)[..pos]) == (out, iv1) && Stored(mem0, mem1, c[..pos], out)
      requires Stored(mem1, mem2, c[pos..pos + bsize], OneBlock(mode, fn, iv1, Gather(mem0, a)[pos..pos + bsize]).0)
      ensures var (o, iv2) := OneBlock(mode, fn, iv1, Gather(mem0, a)[pos..pos + bsize]);
        && Flat(mode, fn, iv0, Gather(mem0, a)[..pos + bsize]) == (out + o, iv2)
        && Stored(mem0, mem2, c[..pos + bsize], out + o)
    {
      hide OneBlock, Flat, Stored;
      var data := Gather(mem0, a);
      var x := data[pos..pos + bsize];
      assert data[..pos] + x == data[..pos + bsize];
      FlatConcat(mode, fn, iv0, data[..pos], x, bsize);
      FlatOne(mode, fn, iv1, x, bsize);
      assert c[..pos] + c[pos..pos + bsize] == c[..pos + bsize];
      DistinctFront(c, pos + bsize);
      StoredMore(mem0, mem1, mem2, c[..pos], c[pos..pos + bsize], out, OneBlock(mode, fn, iv1, x).0);
    }

    lemma DistinctFront(c: seq<nat>, n: nat)
      requires Distinct(c) && n <= |c|
      ensures Distinct(c[..n])
    {}

    /** One turn of the loop, as progress of the whole. */
    method CryptStep(mode: Mode, fn: Bytes -> Bytes, wi: Walk, wo: Walk, src: seq<Entry>, dst: seq<Entry>, more: bool,
                     ghost mem0: Memory, ghost iv0: Bytes, ghost a: seq<nat>, ghost c: seq<nat>, ghost pos: nat)
      returns (wi': Walk, wo': Walk)
      requires Valid() && BlockFn(fn, bsize) && |iv0| == bsize && WalkOk(wi, src, size) && WalkOk(wo, dst, size)
      requires Distinct(c) && SameOrApart(a, c) && Whole(pos, bsize) && pos + bsize <= |a|
      requires Underway(mode, fn, mem0, iv0, a, c, pos)
      requires a[pos..] <= Rest(wi, src, size) && c[pos..] <= Rest(wo, dst, size) && (more ==> pos + bsize < |a|)
      modifies this`mem, this`tmpSrc, this`tmpDst, this`iv
      ensures Valid() && WalkOk(wi', src, size) && WalkOk(wo', dst, size)
      ensures Underway(mode, fn, mem0, iv0, a, c, pos + bsize)
      ensures a[pos + bsize..] <= Rest(wi', src, size) && c[pos + bsize..] <= Rest(wo', dst, size)
    {
      hide Rest, Stored, OneBlock, Flat, Distinct, SameOrApart, ListOk;
      ghost var mem1, iv1 := mem, iv;
      ghost var out := Flat(mode, fn, iv0, Gather(mem0, a)[..pos]).0;
      Untouched(mem0, mem, a, c, pos, out);
      assert Rest(wi, src, size)[..bsize] == a[pos..][..bsize] == a[pos..pos + bsize];
      assert Rest(wo, dst, size)[..bsize] == c[pos..][..bsize] == c[pos..pos + bsize];
      wi', wo' := CryptBlock(mode, fn, wi, wo, src, dst, more);
      Onward(mode, fn, mem0, mem1, mem, iv0, iv1, a, c, pos, out);
      assert a[pos..][bsize..] == a[pos + bsize..] && c[pos..][bsize..] == c[pos + bsize..];
      PrefixDrop(a[pos..], Rest(wi, src, size), bsize);
      PrefixDrop(c[pos..], Rest(wo, dst, size), bsize);
    }

    lemma PrefixDrop(a: seq<nat>, b: seq<nat>, n: nat)
      requires a <= b && n <= |a|
      ensures a[n..] <= b[n..]
    {}

    /**
      crypt: for every way the source and the destination are cut into
      entries, the destination gets what the mode makes of the source's bytes
      as one string, the IV is left for a call to follow, and no other byte of
      memory changes.
    */
    method Crypt(mode: Mode, fn: Bytes -> Bytes, dst: seq<Entry>, src: seq<Entry>, nbytes: nat) returns (ok: bool)
      requires Valid() && BlockFn(fn, bsize)
      requires nbytes > 0 && nbytes % bsize == 0 ==> Fit(mem, size, src, dst, nbytes)
      modifies this`mem, this`tmpSrc, this`tmpDst, this`iv
      ensures Valid() && (ok <==> nbytes % bsize == 0)
      ensures !ok || nbytes == 0 ==> mem == old(mem) && iv == old(iv)
      ensures ok && nbytes > 0 ==>
        var (out, iv') := Flat(mode, fn, old(iv), Gather(old(mem), Addresses(src, size)[..nbytes]));
        iv == iv' && Stored(old(mem), mem, Addresses(dst, size)[..nbytes], out)
    {
      if nbytes == 0 {
        DivModUnique(0, bsize, 0, 0);
        return true;
      }
      if nbytes % bsize != 0 {
        return false;
      }
      hide Stored, Flat, Distinct, SameOrApart, ListOk, Addresses, Rest, BlockFn, Underway, InMemory, Gather, WalkOk, Start, Whole;
      ghost var a, c := Addresses(src, size)[..nbytes], Addresses(dst, size)[..nbytes];
      ghost var mem0, iv0 := mem, iv;
      ListsNotEmpty(src, dst, nbytes);
      StartIs(src, 0, size);
      StartIs(dst, 0, size);
      assert src[0..] == src && dst[0..] == dst;
      WholeNumber(nbytes);
      CryptLoop(mode, fn, Start(src, 0, size), Start(dst, 0, size), src, dst, nbytes, a, c);
      UnderwayEnds(mode, fn, mem0, iv0, a, c);
      return true;
    }

    lemma WholeNumber(n: nat)
      requires n % bsize == 0
      ensures Whole(n, bsize)
    {}

    lemma WholeZero()
      ensures Whole(0, bsize)
    {
      DivModUnique(0, bsize, 0, 0);
    }

    /** The loop of crypt, from the start of both lists. */
    method CryptLoop(mode: Mode, fn: Bytes -> Bytes, wi0: Walk, wo0: Walk, src: seq<Entry>, dst: seq<Entry>, nbytes: nat,
                     ghost a: seq<nat>, ghost c: seq<nat>)
      requires Valid() && BlockFn(fn, bsize) && Whole(nbytes, bsize) && nbytes == |a| == |c|
      requires WalkOk(wi0, src, size) && WalkOk(wo0, dst, size) && a <= Rest(wi0, src, size) && c <= Rest(wo0, dst, size)
      requires InMemory(a, mem) && InMemory(c, mem) && Distinct(c) && SameOrApart(a, c)
      modifies this`mem, this`tmpSrc, this`tmpDst, this`iv
      ensures Valid() && Underway(mode, fn, old(mem), old(iv), a, c, |a|)
    {
      hide Stored, Flat, Distinct, SameOrApart, ListOk, Addresses, Rest, BlockFn, Underway, InMemory, Gather, Whole;
      ghost var mem0, iv0 := mem, iv;
      UnderwayStarts(mode, fn, a, c);
      WholeZero();
      var wi, wo, left := wi0, wo0, nbytes;
      ghost var pos: nat := 0;
      assert a[0..] == a && c[0..] == c;
      while left > 0
        invariant left == nbytes - pos && pos <= nbytes && Whole(pos, bsize) && Whole(left, bsize)
        invariant Valid() && WalkOk(wi, src, size) && WalkOk(wo, dst, size)
        invariant Underway(mode, fn, mem0, iv0, a, c, pos)
        invariant a[pos..] <= Rest(wi, src, size) && c[pos..] <= Rest(wo, dst, size)
      {
        NextBlock(pos, left, bsize);
        left := left - bsize;
        wi, wo := CryptStep(mode, fn, wi, wo, src, dst, left != 0, mem0, iv0, a, c, pos);
        pos := pos + bsize;
      }
    }

    lemma ListsNotEmpty(src: seq<Entry>, dst: seq<Entry>, n: nat)
      requires 0 < n <= |Addresses(src, size)| && n <= |Addresses(dst, size)|
      ensures |src| > 0 && |dst| > 0
    {}

    lemma UnderwayStarts(mode: Mode, fn: Bytes -> Bytes, a: seq<nat>, c: seq<nat>)
      requires |a| == |c| && InMemory(a, mem) && InMemory(c, mem)
      ensures Underway(mode, fn, mem, iv, a, c, 0)
    {
      assert Gather(mem, a)[..0] == [] && c[..0] == [];
      FlatEmpty(mode, fn, iv);
      StoredNothing(mem);
    }

    lemma UnderwayEnds(mode: Mode, fn: Bytes -> Bytes, mem0: Memory, iv0: Bytes, a: seq<nat>, c: seq<nat>)
      requires |a| == |c| && Underway(mode, fn, mem0, iv0, a, c, |a|)
      ensures InMemory(a, mem0)
      ensures var (out, iv1) := Flat(mode, fn, iv0, Gather(mem0, a)); iv == iv1 && Stored(mem0, mem, c, out)
    {
      assert c[..|a|] == c && Gather(mem0, a)[..|a|] == Gather(mem0, a);
    }
  }

  lemma FitAnywhere(m: Memory, m': Memory, size: Pos, src: seq<Entry>, dst: seq<Entry>, n: nat)
    requires Fit(m, size, src, dst, n) && |m'| == |m|
    ensures Fit(m', size, src, dst, n)
  {}

  /** Ciphertext decrypted from a list that is cut differently, to wherever, is the plaintext again. */
  method CbcRestores(e: Engine, enc: Bytes -> Bytes, dec: Bytes -> Bytes, plain: seq<Entry>, coded: seq<Entry>,
                     recut: seq<Entry>, result: seq<Entry>, n: nat)
    requires e.Valid() && BlockFn(enc, e.bsize) && BlockFn(dec, e.bsize) && Undoes(dec, enc, e.bsize)
    requires n > 0 && n % e.bsize == 0
    requires Fit(e.mem, e.size, plain, coded, n) && Fit(e.mem, e.size, recut, result, n)
    requires Addresses(recut, e.size)[..n] == Addresses(coded, e.size)[..n]
    modifies e
    ensures InMemory(Addresses(result, e.size)[..n], e.mem)
    ensures Gather(e.mem, Addresses(result, e.size)[..n]) == Gather(old(e.mem), Addresses(plain, e.size)[..n])
  {
    hide BlockFn, Undoes, Addresses, Flat, Stored, Distinct, SameOrApart, ListOk, Gather;
    var iv := e.iv;
    ghost var mem0 := e.mem;
    ghost var data := Gather(mem0, Addresses(plain, e.size)[..n]);
    var ok := e.Crypt(CbcEncrypt, enc, coded, plain, n);
    ghost var mem1 := e.mem;
    StoredGather(mem0, mem1, Addresses(coded, e.size)[..n], Flat(CbcEncrypt, enc, iv, data).0);
    SameSize(mem0, mem1, Addresses(coded, e.size)[..n], Flat(CbcEncrypt, enc, iv, data).0);
    FitAnywhere(mem0, mem1, e.size, recut, result, n);
    e.iv := iv;
    ok := e.Crypt(CbcDecrypt, dec, result, recut, n);
    CbcInverts(enc, dec, iv, data, e.bsize);
    StoredGather(mem1, e.mem, Addresses(result, e.size)[..n], data);
  }

  lemma SameSize(mem0: Memory, mem1: Memory, a: seq<nat>, x: Bytes)
    requires Stored(mem0, mem1, a, x)
    ensures |mem1| == |mem0|
  {}
}
