/**
  Direct I/O: the walk over a user buffer, a file and its block map, and the
  packing of the resulting page sections into BIOs.

  Positions in the file, in a page and on disk are counted in dio blocks, the
  unit chosen per request.  `Piece` is the meaning of the whole machinery: one
  dio block of a page paired with one dio block of the disk.
*/
module DirectIO {
  import opened Common

  const PAGE_SIZE: nat := 4096
  const DIO_PAGES: nat := 64
  const ENOTBLK: int := -15
  const EIO: int := -5
  const EFAULT: int := -14

  datatype Page = UserPage(id: nat) | ZeroPage

  /** One dio block: block number `block` of `page` goes with disk block `disk`. */
  datatype Piece = Piece(page: Page, block: nat, disk: int)

  /** A section of a page, as a bio_vec describes it. */
  datatype Vec = Vec(page: Page, offset: nat, len: nat)

  datatype Bio = Bio(start: int, vecs: seq<Vec>)

  // ------------------------------------------------------------------
  // Cutting BIOs back into pieces
  // ------------------------------------------------------------------

  function Cut(v: Vec, at: int): seq<Piece> {
    seq(v.len, i requires 0 <= i < v.len => Piece(v.page, v.offset + i, at + i))
  }

  function Blocks(vecs: seq<Vec>): nat {
    if vecs == [] then 0 else Blocks(vecs[..|vecs| - 1]) + vecs[|vecs| - 1].len
  }

  function CutVecs(vecs: seq<Vec>, at: int): seq<Piece> {
    if vecs == [] then []
    else
      var front := vecs[..|vecs| - 1];
      CutVecs(front, at) + Cut(vecs[|vecs| - 1], at + Blocks(front))
  }

  function CutBios(bios: seq<Bio>): seq<Piece> {
    if bios == [] then []
    else CutBios(bios[..|bios| - 1]) + CutVecs(bios[|bios| - 1].vecs, bios[|bios| - 1].start)
  }

  lemma CutVecsAppend(vecs: seq<Vec>, v: Vec, at: int)
    ensures CutVecs(vecs + [v], at) == CutVecs(vecs, at) + Cut(v, at + Blocks(vecs))
    ensures Blocks(vecs + [v]) == Blocks(vecs) + v.len
  {
    assert (vecs + [v])[..|vecs|] == vecs;
  }

  lemma CutBiosAppend(bios: seq<Bio>, b: Bio)
    ensures CutBios(bios + [b]) == CutBios(bios) + CutVecs(b.vecs, b.start)
  {
    assert (bios + [b])[..|bios|] == bios;
  }

  lemma CutGrow(v: Vec, len: nat, at: int)
    ensures Cut(v.(len := v.len + len), at)
         == Cut(v, at) + Cut(Vec(v.page, v.offset + v.len, len), at + v.len)
  {}

  // ------------------------------------------------------------------
  // The environment of one request
  // ------------------------------------------------------------------

  /** What the file system answers for one of its blocks. */
  datatype FsBlock = Hole | Mapped(disk: nat, isNew: bool) | Failing(err: int)

  /** Errors are negative; get_blocks is asked to create blocks only for writes. */
  ghost predicate ValidMap(write: bool, fs: nat -> FsBlock) {
    forall g :: (fs(g).Failing? ==> fs(g).err < 0) && (!write && fs(g).Mapped? ==> !fs(g).isNew)
  }

  /** The last answer of get_blocks; `disk` and `size` in dio blocks. */
  datatype MapBh = MapBh(mapped: bool, isNew: bool, boundary: bool, disk: int, size: nat)

  /**
    One request: dio blocks per file-system block and per page, the size of the
    file in dio blocks, the block map, and the user's virtual pages, None being
    a page that cannot be pinned.
  */
  datatype Env = Env(write: bool, perFs: Pos, perPage: Pos, eof: nat,
                     fs: nat -> FsBlock, pages: nat -> Option<Page>, failing: nat -> bool)
  {
    ghost predicate Valid() {
      ValidMap(write, fs)
    }

    /** Some BIO that is reaped during the walk has failed. */
    ghost predicate SomeFails() {
      exists n :: failing(n)
    }

    /** The file-system block that holds dio block `g` of the file. */
    function At(g: nat): FsBlock { fs(g / perFs) }

    /** The disk block, in dio blocks, of dio block `g` of the file. */
    function DiskOf(g: nat): int
      requires At(g).Mapped?
    {
      At(g).disk * perFs + g % perFs
    }

    /** Every page from `lo` up to, not including, `hi` can be pinned. */
    ghost predicate NoFault(lo: int, hi: int) {
      forall p: nat :: lo <= p < hi ==> pages(p).Some?
    }

    /**
      The page that supplies virtual page `vp` of a segment whose first page is
      `lo`: from the first fault on, a write goes on with the zero page.
    */
    ghost function Source(lo: nat, vp: nat): Page {
      if NoFault(lo, vp + 1) && pages(vp).Some? then pages(vp).value else ZeroPage
    }

    /** The virtual page of the first block of a segment. */
    function FirstPage(base: nat): nat { base / perPage }

    /** What block `vb` of the user's address space contributes for file block `g`. */
    ghost function BlockPieces(base: nat, vb: nat, g: nat): seq<Piece>
    {
      if At(g).Mapped? then
        [Piece(Source(FirstPage(base), vb / perPage), vb % perPage, DiskOf(g))]
      else []
    }

    /** The pieces of the first `n` blocks of a segment at `base`, read or written at `file`. */
    ghost function UserPieces(base: nat, file: nat, n: nat): seq<Piece>
    {
      if n == 0 then [] else
        UserPieces(base, file, n - 1) + BlockPieces(base, base + n - 1, file + n - 1)
    }

    /** The user blocks that lie over holes, in order. */
    ghost function HoleBlocks(base: nat, file: nat, n: nat): seq<(Page, nat)>
    {
      if n == 0 then [] else
        HoleBlocks(base, file, n - 1) +
        (if At(file + n - 1).Mapped? then [] else
           [(Source(FirstPage(base), (base + n - 1) / perPage), (base + n - 1) % perPage)])
    }

    /** Zeros for the part of a new file-system block in front of `g`. */
    ghost function HeadZeros(g: nat): seq<Piece>
    {
      if At(g).Mapped? && At(g).isNew then
        Cut(Vec(ZeroPage, 0, g % perFs), At(g).disk * perFs)
      else []
    }

    /** Zeros for the part of a new file-system block from `g` on, when `g` is inside it. */
    ghost function TailZeros(g: nat): seq<Piece>
    {
      if At(g).Mapped? && At(g).isNew && g % perFs != 0 then
        Cut(Vec(ZeroPage, 0, perFs - g % perFs), DiskOf(g))
      else []
    }

    /** File-system blocks s..s+n are mapped one after the other from `disk`. */
    ghost predicate Extent(s: nat, n: nat, disk: nat, isNew: bool) {
      forall h: nat :: s <= h < s + n ==> fs(h) == Mapped(disk + (h - s), isNew)
    }

    /** Virtual block `vb` is block `bip` of, or the end of, virtual page `vp`. */
    ghost predicate Place(vb: nat, vp: nat, bip: nat) {
      vb == vp * perPage + bip
    }

    ghost predicate Fits(bs: Pos) {
      perPage * bs == PAGE_SIZE
    }

    /** A segment of n blocks at `base` lies in `count` pages from its first one. */
    ghost predicate Covers(base: nat, n: nat, count: nat) {
      base + n <= (FirstPage(base) + count) * perPage
    }

    /** The walk goes past block `g`: it is on disk, or a hole that a read may clear. */
    ghost predicate Passable(g: nat) {
      At(g).Mapped? || (!write && At(g).Hole? && g < eof)
    }

    /** What do_direct_IO returns when it does not go past block `g`. */
    function StopRet(g: nat): int {
      match At(g)
      case Failing(err) => err
      case _ => if write then ENOTBLK else 0
    }

    /**
      The end of the virtual pages met when `n` of the `count` blocks of a
      segment are passed: the page of the next block is the last, if there is one.
    */
    function PagesMet(base: nat, n: nat, count: nat): nat {
      if n < count then FirstPage(base + n) + 1
      else if n == 0 then FirstPage(base)
      else FirstPage(base + n - 1) + 1
    }

    /** A page met could not be pinned. */
    ghost predicate Faults(base: nat, n: nat, count: nat) {
      !NoFault(FirstPage(base), PagesMet(base, n, count))
    }

    /** Mapped blocks f..f+n, all new or all old, lie one after the other on disk from `d`. */
    ghost predicate Run(f: nat, n: nat, d: int, isNew: bool)
    {
      forall g: nat :: f <= g < f + n ==>
        At(g).Mapped? && At(g).isNew == isNew && DiskOf(g) == d + (g - f)
    }
  }

  /** Where dio block g of an extent that starts at file-system block s lies. */
  lemma ExtentAt(w: Pos, s: nat, n: nat, g: nat, disk: nat)
    requires s * w <= g < (s + n) * w
    ensures s <= g / w < s + n
    ensures (disk + (g / w - s)) * w + g % w == disk * w + (g - s * w)
  {
    var q := g / w;
    assert g == q * w + g % w;
    if q < s {
      MulMonotone(q + 1, s, w);
    } else if q >= s + n {
      MulMonotone(s + n, q, w);
    }
    assert (disk + (q - s)) * w == disk * w + q * w - s * w;
  }

  lemma ExtentEnd(w: Pos, f: nat, n: nat)
    requires n >= 1
    ensures f % w < n * w
    ensures f + (n * w - f % w) == (f / w + n) * w
    ensures (f / w + n) * w % w == 0
  {
    assert f == (f / w) * w + f % w;
    MulMonotone(1, n, w);
    assert (f / w + n) * w == (f / w) * w + n * w;
    DivModUnique((f / w + n) * w, w, f / w + n, 0);
  }

  lemma RunAt(e: Env, f: nat, n: nat, disk: nat, isNew: bool, g: nat)
    requires e.Extent(f / e.perFs, n, disk, isNew)
    requires f <= g < (f / e.perFs + n) * e.perFs
    ensures e.At(g).Mapped? && e.At(g).isNew == isNew
    ensures e.DiskOf(g) == disk * e.perFs + f % e.perFs + (g - f)
  {
    assert f == (f / e.perFs) * e.perFs + f % e.perFs;
    ExtentAt(e.perFs, f / e.perFs, n, g, disk);
  }

  /** An extent of n file-system blocks is a run of dio blocks from any block inside its first one. */
  lemma ExtentIsRun(e: Env, f: nat, n: nat, disk: nat, isNew: bool)
    requires n >= 1
    requires e.Extent(f / e.perFs, n, disk, isNew)
    ensures f % e.perFs < n * e.perFs
    ensures e.Run(f, n * e.perFs - f % e.perFs, disk * e.perFs + f % e.perFs, isNew)
    ensures (f + (n * e.perFs - f % e.perFs)) % e.perFs == 0
  {
    ExtentEnd(e.perFs, f, n);
    forall g: nat | f <= g < (f / e.perFs + n) * e.perFs
      ensures e.At(g).Mapped? && e.At(g).isNew == isNew
      ensures e.DiskOf(g) == disk * e.perFs + f % e.perFs + (g - f)
    {
      RunAt(e, f, n, disk, isNew, g);
    }
  }

  /** Blocks of one page have the page's number as quotient and their place in it as remainder. */
  lemma InPage(w: Pos, vp: nat, i: nat)
    ensures i < w ==> (vp * w + i) / w == vp && (vp * w + i) % w == i
    ensures i == w ==> (vp * w + i) / w == vp + 1 && (vp * w + i) % w == 0
  {
    if i < w {
      DivModUnique(vp * w + i, w, vp, i);
    } else if i == w {
      assert (vp + 1) * w == vp * w + w;
      DivModUnique(vp * w + i, w, vp + 1, 0);
    }
  }

  lemma RunSplit(e: Env, f: nat, n: nat, c: nat, d: int, isNew: bool)
    requires c <= n && e.Run(f, n, d, isNew)
    ensures e.Run(f, c, d, isNew) && e.Run(f + c, n - c, d + c, isNew)
    ensures forall g: nat :: f <= g < f + c ==> e.Passable(g)
  {}

  lemma PlaceShift(e: Env, vb: nat, vp: nat, bip: nat, c: nat)
    requires e.Place(vb, vp, bip)
    ensures e.Place(vb + c, vp, bip + c)
  {}

  lemma PlaceNext(e: Env, vb: nat, vp: nat)
    requires e.Place(vb, vp, e.perPage)
    ensures e.Place(vb, vp + 1, 0)
  {
    assert (vp + 1) * e.perPage == vp * e.perPage + e.perPage;
  }

  lemma PlacePage(e: Env, vb: nat, vp: nat, bip: nat)
    requires e.Place(vb, vp, bip) && bip <= e.perPage
    ensures bip < e.perPage ==> e.FirstPage(vb) == vp
    ensures bip > 0 ==> vb > 0 && e.FirstPage(vb - 1) == vp
  {
    InPage(e.perPage, vp, bip);
    if bip > 0 {
      InPage(e.perPage, vp, bip - 1);
    }
  }

  lemma PlaceBelow(e: Env, base: nat, k: nat, n: nat, vp: nat, bip: nat, count: nat)
    requires e.Covers(base, n, count) && e.Place(base + k, vp, bip) && k < n
    ensures vp < e.FirstPage(base) + count
  {
    if e.FirstPage(base) + count <= vp {
      MulMonotone(e.FirstPage(base) + count, vp, e.perPage);
    }
  }

  lemma BlockPieceAt(e: Env, base: nat, g: nat, vp: nat, bip: nat)
    requires bip < e.perPage && e.At(g).Mapped?
    ensures e.BlockPieces(base, vp * e.perPage + bip, g)
         == [Piece(e.Source(e.FirstPage(base), vp), bip, e.DiskOf(g))]
  {
    InPage(e.perPage, vp, bip);
  }

  /** A run of disk blocks under one page is one section. */
  lemma {:induction false} SectionPieces(e: Env, base: nat, file: nat, n: nat, c: nat,
                                         vp: nat, bip: nat, d: int, isNew: bool)
    requires e.Place(base + n, vp, bip) && bip + c <= e.perPage
    requires e.Run(file + n, c, d, isNew)
    ensures e.UserPieces(base, file, n + c)
         == e.UserPieces(base, file, n) + Cut(Vec(e.Source(e.FirstPage(base), vp), bip, c), d)
  {
    hide Env.DiskOf, Env.At, Env.BlockPieces, Env.Source;
    var page := e.Source(e.FirstPage(base), vp);
    if c == 0 {
      assert Cut(Vec(page, bip, 0), d) == [];
    } else {
      SectionPieces(e, base, file, n, c - 1, vp, bip, d, isNew);
      BlockPieceAt(e, base, file + n + (c - 1), vp, bip + (c - 1));
      CutSnoc(page, bip, c - 1, d);
    }
  }

  lemma CutSnoc(page: Page, offset: nat, len: nat, at: int)
    ensures Cut(Vec(page, offset, len + 1), at)
         == Cut(Vec(page, offset, len), at) + [Piece(page, offset + len, at + len)]
  {}

  lemma {:induction false} SectionHasNoHoles(e: Env, base: nat, file: nat, n: nat, c: nat, d: int, isNew: bool)
    requires e.Run(file + n, c, d, isNew)
    ensures e.HoleBlocks(base, file, n + c) == e.HoleBlocks(base, file, n)
  {
    hide Env.DiskOf, Env.At, Env.Source;
    if c > 0 {
      SectionHasNoHoles(e, base, file, n, c - 1, d, isNew);
      assert e.At(file + n + (c - 1)).Mapped?;
    }
  }

  /** A block over a hole puts nothing under I/O. */
  lemma HoleStep(e: Env, base: nat, file: nat, n: nat, vp: nat, bip: nat)
    requires e.Place(base + n, vp, bip) && bip < e.perPage && !e.At(file + n).Mapped?
    ensures e.UserPieces(base, file, n + 1) == e.UserPieces(base, file, n)
    ensures e.HoleBlocks(base, file, n + 1)
         == e.HoleBlocks(base, file, n) + [(e.Source(e.FirstPage(base), vp), bip)]
  {
    InPage(e.perPage, vp, bip);
  }

  /** A block that does not begin a file-system block shares its predecessor's. */
  lemma SameFsBlock(e: Env, g: nat)
    ensures (g + 1) % e.perFs != 0 ==> e.At(g + 1) == e.At(g)
  {
    var w := e.perFs;
    if g % w + 1 < w {
      DivModUnique(g + 1, w, g / w, g % w + 1);
    } else {
      DivModUnique(g + 1, w, g / w + 1, 0);
    }
  }

  // ------------------------------------------------------------------
  // Segments in bytes
  // ------------------------------------------------------------------

  /** An iovec: address and length in bytes. */
  datatype Seg = Seg(addr: nat, len: nat) {
    function Base(bs: Pos): nat { addr / bs }
    function Count(bs: Pos): nat { len / bs }
    function UserPage(): nat { addr / PAGE_SIZE }
    function FirstBlock(bs: Pos): nat { (addr % PAGE_SIZE) / bs }
    predicate Aligned(bs: Pos) { addr % bs == 0 && len % bs == 0 }
  }

  /** How many pages direct_io_worker counts for a segment. */
  function TotalPages(s: Seg): (count: nat) {
    var off := s.addr % PAGE_SIZE;
    // the unsigned arithmetic of the source may pass through a negative number here
    if off == 0 then (s.len + PAGE_SIZE - 1) / PAGE_SIZE
    else 1 + (s.len - (PAGE_SIZE - off) + PAGE_SIZE - 1) / PAGE_SIZE
  }

  lemma TotalPagesCover(s: Seg)
    ensures s.addr + s.len <= (s.addr / PAGE_SIZE + TotalPages(s)) * PAGE_SIZE
  {}

  /** Block-aligned addresses: bytes and dio blocks agree on page and place in the page. */
  lemma SegmentGeometry(e: Env, bs: Pos, s: Seg)
    requires e.Fits(bs) && s.Aligned(bs)
    ensures e.FirstPage(s.Base(bs)) == s.UserPage()
    ensures e.Place(s.Base(bs), s.UserPage(), s.FirstBlock(bs)) && s.FirstBlock(bs) < e.perPage
    ensures e.Covers(s.Base(bs), s.Count(bs), TotalPages(s))
  {
    InPages(e.perPage, bs, s.addr);
    CoversInBlocks(e, bs, s, s.addr / PAGE_SIZE);
  }

  /** Pages and bytes, or pages and blocks: an aligned address comes out at the same place. */
  lemma InPages(perPage: Pos, bs: Pos, addr: nat)
    requires perPage * bs == PAGE_SIZE && addr % bs == 0
    ensures addr / bs / perPage == addr / PAGE_SIZE && addr / bs % perPage == addr % PAGE_SIZE / bs
  {
    var b := addr / bs;
    var q, r := b / perPage, b % perPage;
    assert addr == b * bs && b == q * perPage + r;
    assert b * bs == q * (perPage * bs) + r * bs by {
      assert (q * perPage + r) * bs == (q * perPage) * bs + r * bs;
      assert (q * perPage) * bs == q * (perPage * bs);
    }
    MulMonotone(r + 1, perPage, bs);
    assert (r + 1) * bs == r * bs + bs;
    MulMonotone(0, r, bs);
    DivModUnique(addr, PAGE_SIZE, q, r * bs);
    DivModUnique(r * bs, bs, r, 0);
  }

  /** `n << blkbits` */
  function Bytes(bs: Pos, n: nat): nat { n * bs }

  lemma NoBytes(bs: Pos)
    ensures Bytes(bs, 0) == 0
  {}

  lemma BytesDone(s: Seg, bs: Pos, n: nat, rest: nat, blocks: nat)
    requires s.Aligned(bs) && n + rest == s.Count(bs)
    ensures Bytes(bs, blocks) + (s.len - Bytes(bs, rest)) == Bytes(bs, blocks + n)
  {
    assert s.len == bs * (n + rest);
  }

  lemma CoversInBlocks(e: Env, bs: Pos, s: Seg, q: nat)
    requires e.Fits(bs) && s.addr % bs == 0 && s.len % bs == 0
    requires e.FirstPage(s.addr / bs) == q == s.addr / PAGE_SIZE
    ensures e.Covers(s.addr / bs, s.len / bs, TotalPages(s))
  {
    TotalPagesCover(s);
    var b, n, m := s.addr / bs, s.len / bs, q + TotalPages(s);
    assert s.addr == b * bs && s.len == n * bs;
    assert (b + n) * bs == s.addr + s.len;
    assert m * PAGE_SIZE == (m * e.perPage) * bs;
    var p := m * e.perPage;
    assert (p + 1) * bs == p * bs + bs;
    if p < b + n {
      MulMonotone(p + 1, b + n, bs);
    }
  }

  function Sum(xs: seq<nat>): nat {
    if xs == [] then 0 else Sum(xs[..|xs| - 1]) + xs[|xs| - 1]
  }

  /** The pieces of the segments at `bases`, of which `passed` blocks each are gone through. */
  ghost function Body(e: Env, start: nat, bases: seq<nat>, passed: seq<nat>): seq<Piece>
    requires |passed| <= |bases|
  {
    if passed == [] then []
    else
      var k := |passed| - 1;
      Body(e, start, bases, passed[..k]) + e.UserPieces(bases[k], start + Sum(passed[..k]), passed[k])
  }

  ghost function Holes(e: Env, start: nat, bases: seq<nat>, passed: seq<nat>): seq<(Page, nat)>
    requires |passed| <= |bases|
  {
    if passed == [] then []
    else
      var k := |passed| - 1;
      Holes(e, start, bases, passed[..k]) + e.HoleBlocks(bases[k], start + Sum(passed[..k]), passed[k])
  }

  lemma PassSegment(e: Env, start: nat, bases: seq<nat>, passed: seq<nat>, n: nat)
    requires |passed| < |bases|
    ensures Sum(passed + [n]) == Sum(passed) + n
    ensures Body(e, start, bases, passed + [n])
         == Body(e, start, bases, passed) + e.UserPieces(bases[|passed|], start + Sum(passed), n)
    ensures Holes(e, start, bases, passed + [n])
         == Holes(e, start, bases, passed) + e.HoleBlocks(bases[|passed|], start + Sum(passed), n)
  {
    assert (passed + [n])[..|passed|] == passed;
  }

  lemma SumPrefix(xs: seq<nat>, i: nat)
    requires i < |xs|
    ensures Sum(xs[..i + 1]) == Sum(xs[..i]) + xs[i]
    ensures xs[..|xs|] == xs
  {
    assert xs[..i + 1][..i] == xs[..i];
  }

  lemma SumLast(bs: Pos, xs: seq<nat>)
    requires |xs| > 0
    ensures Bytes(bs, xs[|xs| - 1]) <= Bytes(bs, Sum(xs))
  {
    MulMonotone(xs[|xs| - 1], Sum(xs), bs);
  }

  /** The I/O that a request which has gone through `passed` blocks asks for. */
  ghost function RequestPieces(e: Env, start: nat, bases: seq<nat>, passed: seq<nat>): seq<Piece>
    requires |passed| <= |bases|
  {
    if Sum(passed) == 0 then []
    else e.HeadZeros(start) + Body(e, start, bases, passed) + e.TailZeros(start + Sum(passed))
  }

  ghost predicate FirstNonEmpty(counts: seq<nat>, k: nat) {
    k < |counts| && counts[k] > 0 && forall j :: 0 <= j < k ==> counts[j] == 0
  }

  /** get_blocks is called at all: the first page of the first non-empty segment can be pinned. */
  ghost predicate Asks(e: Env, bases: seq<nat>, counts: seq<nat>)
    requires |bases| == |counts|
  {
    exists k: nat :: FirstNonEmpty(counts, k) && e.pages(e.FirstPage(bases[k])).Some?
  }

  /** Whether get_blocks was called, given how the first `i` segments went. */
  ghost predicate AskState(e: Env, bases: seq<nat>, counts: seq<nat>, i: nat, asked: bool)
    requires |bases| == |counts|
  {
    (asked ==> Asks(e, bases, counts)) && (!asked ==> forall j :: 0 <= j < i && j < |counts| ==> counts[j] == 0)
  }

  lemma AskStep(e: Env, bases: seq<nat>, counts: seq<nat>, i: nat, was: bool, now: bool)
    requires i < |bases| == |counts| && AskState(e, bases, counts, i, was)
    requires if was then now else now == (counts[i] > 0 && e.pages(e.FirstPage(bases[i])).Some?)
    ensures now || counts[i] == 0 ==> AskState(e, bases, counts, i + 1, now)
    ensures !now && counts[i] > 0 ==> !Asks(e, bases, counts)
  {
    if !was && counts[i] > 0 {
      assert FirstNonEmpty(counts, i);
    }
  }

  lemma AskBegin(e: Env, bases: seq<nat>, counts: seq<nat>)
    requires |bases| == |counts|
    ensures AskState(e, bases, counts, 0, false)
  {}

  lemma AskEnd(e: Env, bases: seq<nat>, counts: seq<nat>, i: nat, asked: bool)
    requires |bases| == |counts| && AskState(e, bases, counts, i, asked) && (asked || i == |counts|)
    ensures asked <==> Asks(e, bases, counts)
  {}

  lemma {:induction false} NothingPassed(e: Env, start: nat, bases: seq<nat>, passed: seq<nat>)
    requires |passed| <= |bases| && Sum(passed) == 0
    ensures Body(e, start, bases, passed) == []
  {
    if passed != [] {
      NothingPassed(e, start, bases, passed[..|passed| - 1]);
    }
  }

  /** A page fault was met in one of the segments gone through. */
  ghost predicate Faulted(e: Env, bases: seq<nat>, counts: seq<nat>, passed: seq<nat>)
    requires |passed| <= |bases| == |counts|
  {
    exists j :: 0 <= j < |passed| && e.Faults(bases[j], passed[j], counts[j])
  }

  lemma FaultedStep(e: Env, bases: seq<nat>, counts: seq<nat>, passed: seq<nat>, n: nat)
    requires |passed| < |bases| == |counts|
    ensures Faulted(e, bases, counts, passed + [n])
       <==> Faulted(e, bases, counts, passed) || e.Faults(bases[|passed|], n, counts[|passed|])
  {
    hide Env.Faults;
    var more := passed + [n];
    assert more[|passed|] == n;
    if Faulted(e, bases, counts, passed) {
      var j :| 0 <= j < |passed| && e.Faults(bases[j], passed[j], counts[j]);
      assert more[j] == passed[j];
    }
  }

  /** What the walk over the segments returns, unless an I/O error comes to light. */
  ghost function WalkRet(e: Env, start: nat, bases: seq<nat>, counts: seq<nat>, passed: seq<nat>): int
    requires |passed| <= |bases| == |counts|
  {
    if Sum(passed) == Sum(counts) then 0
    else if Faulted(e, bases, counts, passed) then EFAULT
    else e.StopRet(start + Sum(passed))
  }

  lemma {:induction false} SumLess(xs: seq<nat>, ys: seq<nat>)
    requires |xs| <= |ys| && forall i :: 0 <= i < |xs| ==> xs[i] <= ys[i]
    ensures Sum(xs) <= Sum(ys)
    ensures xs != [] && xs[|xs| - 1] < ys[|xs| - 1] ==> Sum(xs) < Sum(ys)
    decreases |ys|
  {
    if |ys| > |xs| {
      SumLess(xs, ys[..|ys| - 1]);
    } else if xs != [] {
      SumLess(xs[..|xs| - 1], ys[..|ys| - 1]);
    }
  }

  /** The zeros that the code writes behind the request when get_blocks was never called. */
  ghost function StaleZeros(e: Env, start: nat, stale: MapBh): seq<Piece> {
    if stale.isNew && start % e.perFs != 0 then
      Cut(Vec(ZeroPage, 0, e.perFs - start % e.perFs), -1)
    else []
  }

  /** The zeros behind the blocks passed. */
  ghost function EndingZeros(e: Env, start: nat, bases: seq<nat>, counts: seq<nat>, passed: seq<nat>,
                             stale: MapBh): seq<Piece>
    requires |passed| <= |bases| == |counts|
  {
    if Asks(e, bases, counts) then e.TailZeros(start + Sum(passed)) else StaleZeros(e, start, stale)
  }

  /**
    What direct_io_worker has to return when the BIOs are on their way.  A block
    that a write finds unmapped is no error.  An I/O error that comes to light
    behind the walk is reported if nothing else is, unless it was met in
    zeroing the end, where there is anything to zero.
  */
  ghost predicate Returns(e: Env, start: nat, bases: seq<nat>, counts: seq<nat>, passed: seq<nat>, stale: MapBh,
                          lost: bool, walking: bool, ret: int)
    requires |passed| <= |bases| == |counts|
  {
    var walk := WalkRet(e, start, bases, counts, passed);
    var left := if e.write && walk == ENOTBLK then 0 else walk;
    if walking then ret == EIO
    else if lost && left == 0 then
      ret == EIO || (ret == 0 && EndingZeros(e, start, bases, counts, passed, stale) != [])
    else ret == left
  }

  // ------------------------------------------------------------------
  // The request under way
  // ------------------------------------------------------------------

  /** The beginning of `pieces`, followed by the beginning of `tail`: each piece at most once, in order. */
  ghost predicate CutFrom(got: seq<Piece>, pieces: seq<Piece>, tail: seq<Piece>) {
    exists k: nat :: k <= |pieces| && got <= pieces[..k] + tail
  }

  lemma CutFromPrefix(got: seq<Piece>, more: seq<Piece>, pieces: seq<Piece>, tail: seq<Piece>)
    requires got <= more && CutFrom(more, pieces, tail)
    ensures CutFrom(got, pieces, tail)
  {
    var k: nat :| k <= |pieces| && more <= pieces[..k] + tail;
    assert got <= pieces[..k] + tail;
  }

  lemma CutFromAll(pieces: seq<Piece>, tail: seq<Piece>)
    ensures CutFrom(pieces + tail, pieces, tail) && CutFrom([], pieces, tail)
  {
    assert pieces[..|pieces|] == pieces;
    assert [] <= pieces[..0] + tail;
  }

  lemma RequestIsCutFrom(e: Env, start: nat, bases: seq<nat>, passed: seq<nat>)
    requires |passed| <= |bases|
    ensures CutFrom(RequestPieces(e, start, bases, passed), e.HeadZeros(start) + Body(e, start, bases, passed),
                    e.TailZeros(start + Sum(passed)))
  {
    CutFromAll(e.HeadZeros(start) + Body(e, start, bases, passed), e.TailZeros(start + Sum(passed)));
  }

  /** What the walk leaves to be sent, the zeros at the end included. */
  ghost predicate Planned(e: Env, start: nat, bases: seq<nat>, counts: seq<nat>, passed: seq<nat>, stale: MapBh,
                          all: seq<Piece>, lost: bool)
    requires |passed| <= |bases| == |counts|
  {
    && (!lost ==>
          all == RequestPieces(e, start, bases, passed)
               + (if Asks(e, bases, counts) then [] else StaleZeros(e, start, stale)))
    && (if Asks(e, bases, counts)
        then CutFrom(all, e.HeadZeros(start) + Body(e, start, bases, passed), e.TailZeros(start + Sum(passed)))
        else !lost && all == StaleZeros(e, start, stale))
  }

  lemma SentAsPlanned(e: Env, start: nat, bases: seq<nat>, counts: seq<nat>, passed: seq<nat>, stale: MapBh,
                      all: seq<Piece>, got: seq<Piece>, walked: bool, lost: bool)
    requires |passed| <= |bases| == |counts|
    requires Planned(e, start, bases, counts, passed, stale, all, walked)
    requires if lost then got <= all else got == all
    ensures !walked && !lost ==>
      got == RequestPieces(e, start, bases, passed)
           + (if Asks(e, bases, counts) then [] else StaleZeros(e, start, stale))
    ensures Asks(e, bases, counts) ==>
      CutFrom(got, e.HeadZeros(start) + Body(e, start, bases, passed), e.TailZeros(start + Sum(passed)))
    ensures !Asks(e, bases, counts) ==> got <= StaleZeros(e, start, stale)
  {
    hide Asks, Body, RequestPieces, StaleZeros, CutFrom, Env.HeadZeros, Env.TailZeros, Sum;
    if Asks(e, bases, counts) {
      CutFromPrefix(got, all, e.HeadZeros(start) + Body(e, start, bases, passed), e.TailZeros(start + Sum(passed)));
    }
  }

  lemma NoHeadZeros(e: Env, start: nat)
    ensures e.perFs == 1 ==> e.HeadZeros(start) == []
  {
    assert Cut(Vec(ZeroPage, 0, 0), 0) == [];
  }

  class Dio {
    const env: Env
    ghost const stale: MapBh  // what map_bh held before the first get_blocks

    // BIO submission state
    var submitted: seq<Bio>
    var bio: Option<Bio>
    var boundary: bool
    var reapCounter: nat
    var reaps: nat
    var finalBlockInBio: int

    // deferred addition of a page
    var curPage: Option<Page>
    var curPageOffset: nat
    var curPageLen: nat
    var curPageBlock: int

    // the walk
    var blockInFile: nat
    var finalBlockInRequest: nat
    var blocksAvailable: nat
    var nextBlockForIo: int
    var startZeroDone: bool
    var mapBh: MapBh
    var pageErrors: int
    var zeroed: seq<(Page, nat)>
    ghost var asked: bool  // get_blocks has been called

    var result: int  // bytes transferred

    // the page queue
    var pages: seq<Page>
    var firstBlockInPage: nat
    var head: nat
    var tail: nat
    var currPage: nat
    var totalPages: nat
    var currUserPage: nat  // the page of curr_user_address

    // ---------------- packing into BIOs ----------------

    ghost predicate BioOk()
      reads this`bio, this`finalBlockInBio
    {
      bio.Some? ==>
        && bio.value.vecs != []
        && finalBlockInBio == bio.value.start + Blocks(bio.value.vecs)
    }

    ghost function CurPieces(): seq<Piece>
      reads this`curPage, this`curPageOffset, this`curPageLen, this`curPageBlock
    {
      if curPage.Some? then Cut(Vec(curPage.value, curPageOffset, curPageLen), curPageBlock) else []
    }

    /** Everything that is in some BIO. */
    ghost function Sent(): seq<Piece>
      reads this`submitted, this`bio
    {
      CutBios(submitted) + if bio.Some? then CutVecs(bio.value.vecs, bio.value.start) else []
    }

    /** Everything in BIOs or deferred, in order. */
    ghost function Emitted(): seq<Piece>
      reads this`submitted, this`bio, this`curPage, this`curPageOffset, this`curPageLen, this`curPageBlock
    {
      Sent() + CurPieces()
    }

    method BioSubmit()
      requires bio.Some?
      modifies this`submitted, this`bio, this`boundary
      ensures bio.None? && !boundary
      ensures submitted == old(submitted) + [old(bio).value]
      ensures Sent() == old(Sent())
    {
      CutBiosAppend(submitted, bio.value);
      submitted := submitted + [bio.value];
      bio := None;
      boundary := false;
    }

    /** What a failed BIO leaves when it is reaped. */
    ghost predicate Failed()
      reads this`result, this`reapCounter
    {
      result == EIO && reapCounter == 0 && env.SomeFails()
    }

    /** The deferred section does not continue the BIO under construction. */
    ghost predicate NeedsNew()
      reads this`bio, this`finalBlockInBio, this`curPageBlock
    {
      bio.None? || finalBlockInBio != curPageBlock
    }

    /** A new BIO is needed and reaping will meet a failed one first. */
    ghost predicate Doomed()
      reads this`bio, this`finalBlockInBio, this`curPageBlock, this`reapCounter, this`reaps
    {
      NeedsNew() && reapCounter >= 64 && env.failing(reaps)
    }

    /** Reaping completed BIOs may report an I/O error, from the 65th new BIO on; the result is lost then. */
    method NewBio(start: int) returns (ret: int)
      requires bio.None?
      modifies this`bio, this`boundary, this`reapCounter, this`reaps, this`result
      ensures ret != 0 <==> old(Doomed())
      ensures ret == 0 ==> bio == Some(Bio(start, [])) && !boundary && result == old(result)
      ensures ret != 0 ==> ret == EIO && bio.None? && Failed()
      ensures old(reapCounter) < 64 ==> reapCounter == old(reapCounter) + 1 && reaps == old(reaps)
      ensures Sent() == old(Sent())
    {
      ret := 0;
      if reapCounter >= 64 {
        if env.failing(reaps) {
          ret, result := EIO, EIO;
        }
        reapCounter, reaps := 0, reaps + 1;
      } else {
        reapCounter := reapCounter + 1;
      }
      if ret == 0 {
        bio := Some(Bio(start, []));
        boundary := false;
      }
    }

    /** bio_add_page takes a whole section or nothing, and always accepts one in an empty BIO. */
    method BioAddPage() returns (full: bool)
      requires bio.Some? && curPage.Some?
      requires curPageBlock == bio.value.start + Blocks(bio.value.vecs)
      modifies this`bio, this`finalBlockInBio
      ensures bio.Some? && bio.value.start == old(bio).value.start
      ensures full ==> bio == old(bio) && finalBlockInBio == old(finalBlockInBio) && bio.value.vecs != []
      ensures full ==> old(bio).value.vecs != []
      ensures !full ==> BioOk() && Sent() == old(Sent()) + CurPieces() && finalBlockInBio == curPageBlock + curPageLen
    {
      full := false;
      if bio.value.vecs != [] {
        full := *;
      }
      if !full {
        var v := Vec(curPage.value, curPageOffset, curPageLen);
        CutVecsAppend(bio.value.vecs, v, bio.value.start);
        bio := Some(Bio(bio.value.start, bio.value.vecs + [v]));
        finalBlockInBio := curPageBlock + curPageLen;
      }
    }

    method SendCurPage() returns (ret: int)
      requires BioOk() && curPage.Some?
      modifies this`submitted, this`bio, this`boundary, this`reapCounter, this`reaps, this`result, this`finalBlockInBio
      ensures BioOk()
      ensures ret == 0 ==> bio.Some? && Sent() == old(Sent()) + CurPieces() && result == old(result)
      ensures ret != 0 ==> ret == EIO && Sent() == old(Sent()) && Failed() && old(reapCounter) >= 63
      ensures ret == 0 ==> finalBlockInBio == curPageBlock + curPageLen
      ensures old(Doomed()) ==> ret != 0
      ensures old(NeedsNew()) && old(reapCounter) < 64 ==>
        ret == 0 && reapCounter == old(reapCounter) + 1 && reaps == old(reaps)
    {
      hide Cut, CutBios, CutVecs, Env.SomeFails;
      ret := 0;
      if bio.Some? {
        if finalBlockInBio != curPageBlock {
          BioSubmit();
        }
        // a submitted BIO has cleared `boundary`
        if boundary {
          BioSubmit();
        }
      }
      if bio.None? {
        ret := NewBio(curPageBlock);
        if ret != 0 { return; }
      }
      var full := BioAddPage();
      if full {
        BioSubmit();
        ret := NewBio(curPageBlock);
        if ret == 0 {
          full := BioAddPage();
        }
      }
    }

    /** Whatever is grown, sent or deferred, one section is appended to what was emitted. */
    method SubmitPageSection(page: Page, offset: nat, len: nat, blocknr: int) returns (ret: int)
      requires BioOk()
      modifies this`submitted, this`bio, this`boundary, this`reapCounter, this`reaps, this`result, this`finalBlockInBio,
               this`curPage, this`curPageOffset, this`curPageLen, this`curPageBlock
      ensures BioOk()
      ensures ret == 0 ==>
        Emitted() == old(Emitted()) + Cut(Vec(page, offset, len), blocknr) && result == old(result)
      ensures ret != 0 ==>
        ret == EIO && old(curPage).Some? && curPage.None? && Emitted() == old(Sent()) <= old(Emitted()) && Failed()
      ensures old(curPage).None? ==> reapCounter == old(reapCounter)
      ensures ret == 0 && old(curPage).None? ==>
        && curPage == Some(page) && curPageBlock == blocknr && curPageLen == len
        && bio == old(bio) && reaps == old(reaps) && finalBlockInBio == old(finalBlockInBio)
      ensures old(Doomed()) && old(curPage).Some? && old(curPage) != Some(page) ==> ret != 0
      ensures old(NeedsNew()) && old(reapCounter) < 64 && old(curPage).Some? && old(curPage) != Some(page) ==>
        && ret == 0 && reapCounter == old(reapCounter) + 1 && reaps == old(reaps)
        && curPage == Some(page) && curPageBlock == blocknr && curPageLen == len
        && bio.Some? && finalBlockInBio == old(curPageBlock) + old(curPageLen)
    {
      hide Cut, CutBios, CutVecs, BioOk, Env.SomeFails;
      ret := 0;
      ghost var added := Cut(Vec(page, offset, len), blocknr);
      assert Sent() + (CurPieces() + added) == Emitted() + added;
      if curPage == Some(page)
         && curPageOffset + curPageLen == offset
         && curPageBlock + curPageLen == blocknr
      {
        CutGrow(Vec(page, curPageOffset, curPageLen), len, curPageBlock);
        curPageLen := curPageLen + len;
        assert CurPieces() == old(CurPieces()) + added;
        assert Sent() == old(Sent());
        if boundary {
          ret := SendCurPage();
          curPage := None;
        }
        return;
      }
      if curPage.Some? {
        ret := SendCurPage();
        curPage := None;
        if ret != 0 { return; }
      }
      curPage, curPageOffset, curPageLen, curPageBlock := Some(page), offset, len, blocknr;
    }

    /** The walk stands inside a file-system block that is new. */
    ghost predicate EndsInside()
      reads this`mapBh, this`blockInFile
    {
      mapBh.isNew && blockInFile % env.perFs != 0
    }

    /** dio_zero_block: zeros for the part of a new file-system block that the request leaves out. */
    method ZeroBlock(end: bool) returns (ret: int)
      requires BioOk()
      modifies this`submitted, this`bio, this`boundary, this`reapCounter, this`reaps, this`result, this`finalBlockInBio,
               this`curPage, this`curPageOffset, this`curPageLen, this`curPageBlock,
               this`startZeroDone, this`nextBlockForIo
      ensures BioOk() && startZeroDone
      ensures ret != 0 ==>
        && old(curPage).Some? && curPage.None? && Emitted() == old(Sent()) <= old(Emitted())
        && nextBlockForIo == old(nextBlockForIo) && Failed()
      ensures ret == 0 ==> result == old(result)
      ensures old(curPage).None? ==> reapCounter == old(reapCounter)
      ensures old(Doomed()) && EndsInside() && old(curPage).Some? && old(curPage) != Some(ZeroPage) ==> ret != 0
      ensures ret == 0 ==>
        var r := blockInFile % env.perFs;
        var n := if !mapBh.isNew || r == 0 then 0 else if end then env.perFs - r else r;
        && Emitted() == old(Emitted()) + Cut(Vec(ZeroPage, 0, n), old(nextBlockForIo))
        && nextBlockForIo == old(nextBlockForIo) + n
      ensures ret == 0 && end ==> Emitted() == old(Emitted()) + old(EndZeros())
      ensures ret != 0 && end ==> old(EndZeros()) != []
    {
      hide CutBios, CutVecs, Emitted, Sent, CurPieces, BioOk, Env.SomeFails;
      startZeroDone := true;
      ret := 0;
      if env.perFs == 1 || !mapBh.isNew { return; }
      var thisChunkBlocks := blockInFile % env.perFs;
      if thisChunkBlocks == 0 { return; }
      if end {
        thisChunkBlocks := env.perFs - thisChunkBlocks;
      }
      assert end ==> |EndZeros()| == thisChunkBlocks;
      ret := SubmitPageSection(ZeroPage, 0, thisChunkBlocks, nextBlockForIo);
      if ret != 0 { return; }
      nextBlockForIo := nextBlockForIo + thisChunkBlocks;
    }

    // ---------------- fetching user pages ----------------

    /**
      The queue is ready to hand out the page for virtual page `vp`: the pinned
      pages in order or, once `lo + currPage` has faulted, zero pages only.
    */
    ghost predicate QueueOk(lo: nat, vp: nat)
      reads this`pages, this`head, this`tail, this`currPage, this`currUserPage
    {
      && currUserPage == lo + currPage
      && head <= tail <= |pages|
      && (head < tail ==>
            && vp + (tail - head) == lo + currPage
            && lo <= vp
            && env.NoFault(lo, lo + currPage)
            && forall p: nat :: vp <= p < lo + currPage ==> env.pages(p) == Some(pages[head + (p - vp)]))
      && (head == tail ==>
            || (vp == lo + currPage && env.NoFault(lo, vp))
            || (vp >= lo + currPage && env.pages(lo + currPage).None?))
    }

    /** get_user_pages: pins pages up to the first one that faults, or fewer. */
    method GetUserPages(vp: nat, nr: nat) returns (ret: int, got: seq<Page>)
      requires nr >= 1
      ensures ret < 0 <==> env.pages(vp).None?
      ensures ret < 0 ==> ret == EFAULT
      ensures ret >= 0 ==>
        && 1 <= ret <= nr && ret == |got|
        && forall p: nat :: vp <= p < vp + ret ==> env.pages(p) == Some(got[p - vp])
    {
      if env.pages(vp).None? { return EFAULT, []; }
      got := [env.pages(vp).value];
      while |got| < nr && env.pages(vp + |got|).Some?
        invariant 1 <= |got| <= nr
        invariant forall p: nat :: vp <= p < vp + |got| ==> env.pages(p) == Some(got[p - vp])
        decreases nr - |got|
      {
        var stop: bool := *;
        if stop { break; }
        got := got + [env.pages(vp + |got|).value];
      }
      ret := |got|;
    }

    method GetPage(ghost lo: nat, ghost vp: nat) returns (ret: int, page: Page)
      requires QueueOk(lo, vp) && vp < lo + totalPages
      modifies this`pages, this`head, this`tail, this`currPage, this`currUserPage, this`pageErrors
      ensures ret == 0 || (ret == EFAULT && pageErrors == old(pageErrors))
      ensures ret == 0 ==> page == env.Source(lo, vp) && QueueOk(lo, vp + 1)
      ensures ret < 0 ==> !env.NoFault(lo, vp + 1) && (!env.write || blocksAvailable == 0)
      ensures ret == 0 ==> env.NoFault(lo, vp + 1) || (env.write && blocksAvailable != 0)
      ensures env.NoFault(lo, vp + 1) ==> pageErrors == old(pageErrors)
      ensures !env.NoFault(lo, vp + 1) && ret == 0 ==>
        pageErrors == if old(pageErrors) == 0 then EFAULT else old(pageErrors)
    {
      hide Env.Valid;
      ret, page := 0, ZeroPage;
      if head == tail {
        var nrPages := Min(totalPages - currPage, DIO_PAGES);
        var got: seq<Page>;
        ret, got := GetUserPages(currUserPage, nrPages);
        if ret < 0 && blocksAvailable != 0 && env.write {
          // use up the blocks that are already mapped
          if pageErrors == 0 {
            pageErrors := ret;
          }
          pages, head, tail := [ZeroPage], 0, 1;
          ret := 0;
        } else if ret >= 0 {
          currUserPage := currUserPage + ret;
          currPage := currPage + ret;
          pages, head, tail := got, 0, ret;
          ret := 0;
        } else {
          return;
        }
      }
      page := pages[head];
      head := head + 1;
    }

    // ---------------- the walk ----------------

    /** The blocks still available are a run on disk that ends with a file-system block. */
    ghost predicate MapOk(start: nat)
      reads this`blockInFile, this`blocksAvailable, this`nextBlockForIo, this`mapBh, this`asked
    {
      && start <= blockInFile
      && (asked && mapBh.isNew ==> mapBh.mapped)
      && (!asked ==> blocksAvailable == 0 && blockInFile == start && mapBh == stale && nextBlockForIo == -1)
      && (blocksAvailable > 0 ==>
            && asked && mapBh.mapped
            && env.Run(blockInFile, blocksAvailable, nextBlockForIo, mapBh.isNew)
            && (blockInFile + blocksAvailable) % env.perFs == 0)
      && (blocksAvailable == 0 && asked && mapBh.mapped ==> blockInFile % env.perFs == 0)
      && (blocksAvailable == 0 && start < blockInFile && blockInFile % env.perFs != 0 ==>
            !env.At(blockInFile).Mapped?)
    }

    /** Zeroing in front of the request is done exactly when a mapped block has been met. */
    ghost predicate HeadOk(start: nat)
      reads this`startZeroDone, this`blockInFile, this`blocksAvailable, this`submitted, this`bio,
            this`curPage, this`curPageOffset, this`curPageLen, this`curPageBlock
    {
      env.perFs > 1 ==>
        && (startZeroDone ==> start < blockInFile)
        && (!startZeroDone ==>
              && blocksAvailable == 0 && curPage.None? && bio.None? && Emitted() == []
              && (start < blockInFile ==> !env.At(start).Mapped?))
    }

    ghost function Head(start: nat): seq<Piece>
      reads this`startZeroDone
    {
      if startZeroDone then env.HeadZeros(start) else []
    }

    /** get_blocks: an extent of at least one and at most `count` blocks, or a hole, or an error. */
    method GetBlocks(s: nat, count: nat) returns (ret: int, bh: MapBh, ghost n: nat)
      requires env.Valid() && count >= 1
      ensures env.fs(s).Failing? ==> ret == env.fs(s).err < 0 && !bh.mapped && !bh.isNew
      ensures !env.fs(s).Failing? ==> ret == 0
      ensures env.fs(s).Hole? ==> !bh.mapped && !bh.isNew
      ensures env.fs(s).Mapped? ==>
        && bh.mapped && bh.isNew == env.fs(s).isNew
        && 1 <= n <= count && env.Extent(s, n, env.fs(s).disk, bh.isNew)
        && bh.disk == env.fs(s).disk * env.perFs && bh.size == n * env.perFs
    {
      n := 0;
      match env.fs(s)
      case Failing(err) => ret, bh := err, MapBh(false, false, false, 0, 0);
      case Hole => ret, bh := 0, MapBh(false, false, false, 0, 0);
      case Mapped(disk, isNew) =>
        var m := 1;
        while m < count && env.fs(s + m) == Mapped(disk + m, isNew)
          invariant 1 <= m <= count
          invariant env.Extent(s, m, disk, isNew)
          decreases count - m
        {
          var stop: bool := *;
          if stop { break; }
          m := m + 1;
        }
        var boundary: bool := *;
        n := m;
        ret, bh := 0, MapBh(true, isNew, boundary, disk * env.perFs, m * env.perFs);
    }

    /** How many fs blocks it takes to hold `n` dio blocks. */
    static method RoundedUp(n: nat, per: Pos) returns (r: nat)
      requires n >= 1
      ensures r >= 1 && (r - 1) * per < n <= r * per
    {
      assert n == n / per * per + n % per;
      r := n / per;
      if n % per != 0 {
        r := r + 1;
      }
    }

    /** get_more_blocks and the bookkeeping that follows it in do_direct_IO. */
    method MapMore(ghost start: nat) returns (ret: int)
      requires env.Valid() && MapOk(start)
      requires blocksAvailable == 0 && blockInFile < finalBlockInRequest
      modifies this`mapBh, this`blocksAvailable, this`nextBlockForIo, this`asked
      ensures old(pageErrors) != 0 ==>
        ret == pageErrors && mapBh == old(mapBh) && asked == old(asked)
        && blocksAvailable == 0 && nextBlockForIo == old(nextBlockForIo)
      ensures old(pageErrors) == 0 ==> asked && (mapBh.isNew ==> mapBh.mapped)
      ensures old(pageErrors) == 0 ==> (mapBh.mapped <==> env.At(blockInFile).Mapped?)
      ensures old(pageErrors) == 0 ==>
        if env.At(blockInFile).Failing? then ret == env.At(blockInFile).err < 0 else ret == 0
      ensures old(pageErrors) == 0 && !mapBh.mapped ==> blocksAvailable == 0
      ensures old(pageErrors) == 0 && mapBh.mapped ==>
        var r, w := blockInFile % env.perFs, env.At(blockInFile);
        && w.isNew == mapBh.isNew && blocksAvailable > 0
        && env.Run(blockInFile, blocksAvailable, w.disk * env.perFs + r, mapBh.isNew)
        && (blockInFile + blocksAvailable) % env.perFs == 0
        && nextBlockForIo == w.disk * env.perFs + if mapBh.isNew then 0 else r
    {
      hide Env.DiskOf, Env.Run, Env.Extent, Env.Valid, MapOk;
      ret := pageErrors;
      if ret == 0 {
        var fsStart := blockInFile / env.perFs;
        var dioCount := finalBlockInRequest - blockInFile;
        var fsCount := RoundedUp(dioCount, env.perFs);
        ghost var n: nat;
        ret, mapBh, n := GetBlocks(fsStart, fsCount);
        asked := true;
        if ret == 0 && mapBh.mapped {
          ExtentIsRun(env, blockInFile, n, env.fs(fsStart).disk, mapBh.isNew);
          blocksAvailable := mapBh.size;
          nextBlockForIo := mapBh.disk;
          var remainder := blockInFile % env.perFs;
          if !mapBh.isNew {
            nextBlockForIo := nextBlockForIo + remainder;
          }
          blocksAvailable := blocksAvailable - remainder;
        }
      }
    }

    /** What the request has to have emitted when segment `base`, begun at file block `f0`, has come this far. */
    ghost function Expected(start: nat, before: seq<Piece>, base: nat, f0: nat): seq<Piece>
      requires f0 <= blockInFile
      reads this`startZeroDone, this`blockInFile
    {
      Head(start) + before + env.UserPieces(base, f0, blockInFile - f0)
    }

    /** Emitted and cleared so far are exactly what the request asks for. */
    ghost predicate Faithful(start: nat, before: seq<Piece>, zeros: seq<(Page, nat)>, base: nat, f0: nat)
      reads this`startZeroDone, this`blockInFile, this`blocksAvailable, this`nextBlockForIo, this`mapBh,
            this`asked, this`zeroed, this`submitted, this`bio, this`finalBlockInBio,
            this`curPage, this`curPageOffset, this`curPageLen, this`curPageBlock
    {
      && BioOk() && MapOk(start)
      && start <= f0 <= blockInFile
      && Emitted() == Expected(start, before, base, f0)
      && zeroed == zeros + env.HoleBlocks(base, f0, blockInFile - f0)
    }

    ghost predicate OnTrack(start: nat, before: seq<Piece>, zeros: seq<(Page, nat)>, base: nat, f0: nat)
      reads this`startZeroDone, this`blockInFile, this`blocksAvailable, this`nextBlockForIo, this`mapBh,
            this`asked, this`zeroed, this`submitted, this`bio, this`finalBlockInBio,
            this`curPage, this`curPageOffset, this`curPageLen, this`curPageBlock
    {
      Faithful(start, before, zeros, base, f0) && HeadOk(start)
    }

    /** The next block is mapped and, at the start of the request, zeroing in front of it is done. */
    ghost predicate Ready(start: nat, before: seq<Piece>, zeros: seq<(Page, nat)>, base: nat, f0: nat)
      reads this`startZeroDone, this`blockInFile, this`blocksAvailable, this`nextBlockForIo, this`mapBh,
            this`asked, this`zeroed, this`submitted, this`bio, this`finalBlockInBio,
            this`curPage, this`curPageOffset, this`curPageLen, this`curPageBlock
    {
      && Faithful(start, before, zeros, base, f0)
      && blocksAvailable > 0 && (env.perFs > 1 ==> startZeroDone)
    }

    /**
      After an I/O error of an earlier BIO the deferred page is given up: what
      is in BIOs is then the beginning of what the request asks for.
    */
    ghost predicate CutShort(start: nat, before: seq<Piece>, zeros: seq<(Page, nat)>, base: nat, f0: nat)
      reads this`startZeroDone, this`blockInFile, this`blocksAvailable, this`nextBlockForIo, this`mapBh,
            this`asked, this`zeroed, this`result, this`reapCounter, this`submitted, this`bio, this`finalBlockInBio,
            this`curPage, this`curPageOffset, this`curPageLen, this`curPageBlock
    {
      && BioOk() && MapOk(start)
      && start <= f0 <= blockInFile
      && asked && curPage.None? && (env.perFs > 1 ==> startZeroDone) && Failed()
      && Emitted() <= Expected(start, before, base, f0)
      && zeroed == zeros + env.HoleBlocks(base, f0, blockInFile - f0)
    }

    /** Maps more blocks if needed; a mapped block is then ready for I/O at nextBlockForIo. */
    method PrepareBlock(ghost start: nat, ghost before: seq<Piece>, ghost zeros: seq<(Page, nat)>,
                        ghost base: nat, ghost f0: nat) returns (ret: int)
      requires env.Valid() && OnTrack(start, before, zeros, base, f0)
      requires blockInFile < finalBlockInRequest
      modifies this`mapBh, this`blocksAvailable, this`nextBlockForIo, this`asked,
               this`submitted, this`bio, this`boundary, this`reapCounter, this`reaps, this`result, this`finalBlockInBio,
               this`curPage, this`curPageOffset, this`curPageLen, this`curPageBlock,
               this`startZeroDone
      ensures ret != 0 ==>
        && OnTrack(start, before, zeros, base, f0)
        && (ret == pageErrors || (env.At(blockInFile).Failing? && ret == env.At(blockInFile).err))
      ensures ret == 0 ==>
        && (mapBh.mapped <==> env.At(blockInFile).Mapped?) && !env.At(blockInFile).Failing?
        && (mapBh.mapped ==> Ready(start, before, zeros, base, f0))
        && (!mapBh.mapped ==> blocksAvailable == 0 && OnTrack(start, before, zeros, base, f0))
      ensures pageErrors != 0 ==> if ret == 0 then mapBh.mapped else ret == pageErrors
      ensures result == old(result)
      ensures asked || ret == pageErrors != 0
      ensures old(asked) ==> asked
    {
      hide Env.DiskOf, Env.Valid, CutBios, Emitted, Sent, CurPieces, BioOk, Env.UserPieces, Env.HoleBlocks;
      ret := 0;
      if blocksAvailable == 0 {
        ret := MapMore(start);
        if ret != 0 { return; }
      }
      if mapBh.mapped && env.perFs > 1 && !startZeroDone {
        ghost var pieces := env.UserPieces(base, f0, blockInFile - f0);
        assert before == [] && pieces == [] by { assert [] + before + pieces == []; }
        var _ := ZeroBlock(false);
        assert Expected(start, before, base, f0) == env.HeadZeros(start);
      }
    }

    /** One mapped chunk: as many blocks as are mapped, fit in the page and are asked for. */
    method MoveChunk(page: Page, blockInPage: nat, ghost start: nat) returns (ret: int, chunk: nat)
      requires BioOk() && MapOk(start) && blocksAvailable > 0
      requires blockInFile < finalBlockInRequest && blockInPage < env.perPage
      modifies this`blockInFile, this`blocksAvailable, this`nextBlockForIo,
               this`submitted, this`bio, this`boundary, this`reapCounter, this`reaps, this`result, this`finalBlockInBio,
               this`curPage, this`curPageOffset, this`curPageLen, this`curPageBlock
      ensures BioOk() && MapOk(start) && asked
      ensures ret != 0 ==>
        ret == EIO && blockInFile == old(blockInFile) && curPage.None? && Emitted() <= old(Emitted()) && Failed()
      ensures ret == 0 ==>
        && result == old(result)
        && 1 <= chunk && blockInFile == old(blockInFile) + chunk <= finalBlockInRequest
        && blockInPage + chunk <= env.perPage
        && env.Run(old(blockInFile), chunk, old(nextBlockForIo), mapBh.isNew)
        && Emitted() == old(Emitted()) + Cut(Vec(page, blockInPage, chunk), old(nextBlockForIo))
    {
      hide Env.Run, Cut, Emitted, Sent, CurPieces, BioOk;
      chunk := blocksAvailable;
      chunk := Min(chunk, env.perPage - blockInPage);
      chunk := Min(chunk, finalBlockInRequest - blockInFile);
      RunSplit(env, blockInFile, blocksAvailable, chunk, nextBlockForIo, mapBh.isNew);

      boundary := mapBh.boundary;
      ret := SubmitPageSection(page, blockInPage, chunk, nextBlockForIo);
      if ret != 0 { return; }
      nextBlockForIo := nextBlockForIo + chunk;
      blockInFile := blockInFile + chunk;
      blocksAvailable := blocksAvailable - chunk;
    }

    method SubmitChunk(page: Page, blockInPage: nat, ghost start: nat, ghost before: seq<Piece>,
                       ghost zeros: seq<(Page, nat)>, ghost base: nat, ghost f0: nat, ghost vp: nat)
      returns (ret: int, chunk: nat)
      requires Ready(start, before, zeros, base, f0) && blockInFile < finalBlockInRequest
      requires env.Place(base + (blockInFile - f0), vp, blockInPage) && blockInPage < env.perPage
      requires page == env.Source(env.FirstPage(base), vp)
      modifies this`blockInFile, this`blocksAvailable, this`nextBlockForIo,
               this`submitted, this`bio, this`boundary, this`reapCounter, this`reaps, this`result, this`finalBlockInBio,
               this`curPage, this`curPageOffset, this`curPageLen, this`curPageBlock
      ensures ret != 0 ==> ret == EIO && blockInFile == old(blockInFile) && CutShort(start, before, zeros, base, f0)
      ensures ret == 0 ==> result == old(result)
      ensures ret == 0 ==>
        && 1 <= chunk && blockInFile == old(blockInFile) + chunk <= finalBlockInRequest
        && blockInPage + chunk <= env.perPage
        && env.Place(base + (blockInFile - f0), vp, blockInPage + chunk)
        && (forall g: nat :: old(blockInFile) <= g < blockInFile ==> env.Passable(g))
        && OnTrack(start, before, zeros, base, f0)
    {
      hide Env.DiskOf, Env.At, Env.Source, Env.UserPieces, Env.HoleBlocks, Env.HeadZeros, Env.Place,
           Env.Run, Env.Passable, Cut, Emitted, Sent, CurPieces, BioOk, MapOk;
      ghost var n, d := blockInFile - f0, nextBlockForIo;
      ret, chunk := MoveChunk(page, blockInPage, start);
      if ret != 0 { return; }
      PlaceShift(env, base + n, vp, blockInPage, chunk);
      RunSplit(env, f0 + n, chunk, chunk, d, mapBh.isNew);
      SectionPieces(env, base, f0, n, chunk, vp, blockInPage, d, mapBh.isNew);
      SectionHasNoHoles(env, base, f0, n, chunk, d, mapBh.isNew);
    }

    /** A read of a hole clears the user's block. */
    method ClearHole(page: Page, blockInPage: nat, ghost start: nat, ghost before: seq<Piece>,
                     ghost zeros: seq<(Page, nat)>, ghost base: nat, ghost f0: nat, ghost vp: nat)
      requires OnTrack(start, before, zeros, base, f0) && blocksAvailable == 0
      requires asked && !mapBh.mapped && !env.At(blockInFile).Mapped?
      requires env.Place(base + (blockInFile - f0), vp, blockInPage) && blockInPage < env.perPage
      requires page == env.Source(env.FirstPage(base), vp)
      modifies this`blockInFile, this`zeroed
      ensures blockInFile == old(blockInFile) + 1
      ensures env.Place(base + (blockInFile - f0), vp, blockInPage + 1)
      ensures OnTrack(start, before, zeros, base, f0)
    {
      hide Env.DiskOf, Env.At, Env.Source, Env.UserPieces, Env.HoleBlocks, Env.HeadZeros, Env.Run,
           Cut, CutBios, Emitted, Sent, CurPieces, BioOk;
      HoleStep(env, base, f0, blockInFile - f0, vp, blockInPage);
      SameFsBlock(env, blockInFile);
      zeroed := zeroed + [(page, blockInPage)];
      blockInFile := blockInFile + 1;
    }

    /** The inner loop of do_direct_IO: one page of the user's buffer. */
    method WalkPage(page: Page, first: nat, ghost start: nat, ghost before: seq<Piece>,
                    ghost zeros: seq<(Page, nat)>, ghost base: nat, ghost f0: nat, ghost vp: nat)
      returns (ret: int, stop: bool, ghost lost: bool)
      requires env.Valid() && OnTrack(start, before, zeros, base, f0)
      requires f0 <= blockInFile < finalBlockInRequest
      requires env.Place(base + (blockInFile - f0), vp, first) && first < env.perPage
      requires page == env.Source(env.FirstPage(base), vp)
      modifies this`mapBh, this`blockInFile, this`blocksAvailable, this`nextBlockForIo, this`asked,
               this`submitted, this`bio, this`boundary, this`reapCounter, this`reaps, this`result, this`finalBlockInBio,
               this`curPage, this`curPageOffset, this`curPageLen, this`curPageBlock,
               this`startZeroDone, this`zeroed
      ensures old(blockInFile) <= blockInFile <= finalBlockInRequest
      ensures forall g: nat :: old(blockInFile) <= g < blockInFile ==> env.Passable(g)
      ensures lost ==> stop && ret == EIO && CutShort(start, before, zeros, base, f0)
      ensures !lost ==> OnTrack(start, before, zeros, base, f0) && result == old(result)
      ensures asked || (stop && ret == pageErrors != 0)
      ensures old(asked) ==> asked
      ensures !stop ==>
        && ret == 0 && old(blockInFile) < blockInFile
        && (blockInFile == finalBlockInRequest || env.Place(base + (blockInFile - f0), vp, env.perPage))
      ensures stop && !lost ==>
        && blockInFile < finalBlockInRequest
        && (ret == pageErrors != 0 || !env.Passable(blockInFile))
      ensures stop && !lost ==> ret == if pageErrors != 0 then pageErrors else env.StopRet(blockInFile)
      ensures stop && !lost ==> env.FirstPage(base + (blockInFile - f0)) == vp
      ensures !stop ==> env.FirstPage(base + (blockInFile - f0) - 1) == vp
      ensures stop && ret == 0 ==> !env.write && env.At(blockInFile).Hole? && env.eof <= blockInFile
    {
      hide Env.At, Env.Source, Env.Place, Env.FirstPage, Env.Valid, OnTrack, CutShort, Ready;
      ret, stop, lost := 0, false, false;
      var blockInPage := first;
      while blockInPage < env.perPage
        invariant result == old(result)
        invariant f0 <= blockInFile && OnTrack(start, before, zeros, base, f0)
        invariant old(blockInFile) <= blockInFile < finalBlockInRequest
        invariant forall g: nat :: old(blockInFile) <= g < blockInFile ==> env.Passable(g)
        invariant env.Place(base + (blockInFile - f0), vp, blockInPage) && blockInPage <= env.perPage
        invariant if blockInFile == old(blockInFile) then blockInPage < env.perPage else blockInPage > 0
        invariant old(asked) || old(blockInFile) < blockInFile ==> asked
        decreases env.perPage - blockInPage
      {
        PlacePage(env, base + (blockInFile - f0), vp, blockInPage);
        ret := PrepareBlock(start, before, zeros, base, f0);
        if ret != 0 { stop := true; return; }
        if !mapBh.mapped {
          if env.write { ret, stop := ENOTBLK, true; return; }
          if blockInFile >= env.eof { stop := true; return; }
          ClearHole(page, blockInPage, start, before, zeros, base, f0, vp);
          blockInPage := blockInPage + 1;
        } else {
          var chunk;
          ret, chunk := SubmitChunk(page, blockInPage, start, before, zeros, base, f0, vp);
          if ret != 0 { stop, lost := true, true; return; }
          blockInPage := blockInPage + chunk;
        }
        if blockInFile == finalBlockInRequest { break; }
      }
      PlacePage(env, base + (blockInFile - f0), vp, blockInPage);
    }

    /** The walk stands before block `blockInPage` of virtual page `vp` of segment `base`. */
    ghost predicate Before(start: nat, before: seq<Piece>, zeros: seq<(Page, nat)>, base: nat, f0: nat,
                           vp: nat, blockInPage: nat)
      reads this`startZeroDone, this`blockInFile, this`blocksAvailable, this`nextBlockForIo, this`mapBh,
            this`asked, this`zeroed, this`submitted, this`bio, this`finalBlockInBio,
            this`curPage, this`curPageOffset, this`curPageLen, this`curPageBlock,
            this`pages, this`head, this`tail, this`currPage, this`currUserPage,
            this`finalBlockInRequest, this`totalPages
    {
      && OnTrack(start, before, zeros, base, f0) && blockInFile <= finalBlockInRequest
      && (!asked ==> blocksAvailable == 0)
      && f0 <= finalBlockInRequest && env.Covers(base, finalBlockInRequest - f0, totalPages)
      && (blockInFile < finalBlockInRequest ==>
            && QueueOk(env.FirstPage(base), vp)
            && env.Place(base + (blockInFile - f0), vp, blockInPage) && blockInPage < env.perPage)
    }

    /** One turn of the outer loop of do_direct_IO. */
    method NextPage(blockInPage: nat, ghost start: nat, ghost before: seq<Piece>,
                    ghost zeros: seq<(Page, nat)>, ghost base: nat, ghost f0: nat, ghost vp: nat)
      returns (ret: int, stop: bool, ghost lost: bool)
      requires env.Valid() && f0 <= blockInFile < finalBlockInRequest
      requires Before(start, before, zeros, base, f0, vp, blockInPage)
      requires pageErrors == 0 || pageErrors == EFAULT
      modifies this`mapBh, this`blockInFile, this`blocksAvailable, this`nextBlockForIo, this`asked,
               this`submitted, this`bio, this`boundary, this`reapCounter, this`reaps, this`result, this`finalBlockInBio,
               this`curPage, this`curPageOffset, this`curPageLen, this`curPageBlock,
               this`startZeroDone, this`zeroed, this`pageErrors,
               this`pages, this`head, this`tail, this`currPage, this`currUserPage
      ensures old(blockInFile) <= blockInFile <= finalBlockInRequest
      ensures forall g: nat :: old(blockInFile) <= g < blockInFile ==> env.Passable(g)
      ensures vp < env.FirstPage(base) + totalPages
      ensures lost ==> stop && ret == EIO && CutShort(start, before, zeros, base, f0)
      ensures !lost ==> OnTrack(start, before, zeros, base, f0) && result == old(result)
      ensures !stop ==>
        && ret == 0 && asked && old(blockInFile) < blockInFile
        && Before(start, before, zeros, base, f0, vp + 1, 0)
      ensures stop && ret == 0 ==> !env.write && env.At(blockInFile).Hole? && env.eof <= blockInFile
      ensures stop && !lost ==>
        && blockInFile < finalBlockInRequest
        && (ret == pageErrors != 0 || !env.NoFault(env.FirstPage(base), vp + 1) || !env.Passable(blockInFile))
      ensures pageErrors == 0 || pageErrors == EFAULT
      ensures stop && !lost ==>
        && env.FirstPage(base + (blockInFile - f0)) == vp
        && ret == if old(pageErrors) != 0 || !env.NoFault(env.FirstPage(base), vp + 1) then EFAULT
                  else env.StopRet(blockInFile)
      ensures !stop ==>
        && env.FirstPage(base + (blockInFile - f0) - 1) == vp
        && (pageErrors == 0 <==> old(pageErrors) == 0 && env.NoFault(env.FirstPage(base), vp + 1))
      ensures env.NoFault(env.FirstPage(base), vp + 1) ==> pageErrors == old(pageErrors)
      ensures old(asked) || ret == 0 ==> asked
      ensures old(pageErrors) == 0 && !old(asked) ==> (asked <==> env.NoFault(env.FirstPage(base), vp + 1))
    {
      hide Env.At, Env.Source, Env.Place, Env.Covers, Env.FirstPage, Env.Valid, Env.Passable, Env.NoFault, QueueOk,
           OnTrack, CutShort;
      lost, stop := false, true;
      PlacePage(env, base + (blockInFile - f0), vp, blockInPage);
      PlaceBelow(env, base, blockInFile - f0, finalBlockInRequest - f0, vp, blockInPage, totalPages);
      var page;
      ret, page := GetPage(env.FirstPage(base), vp);
      if ret != 0 { return; }
      ret, stop, lost := WalkPage(page, blockInPage, start, before, zeros, base, f0, vp);
      if !stop && blockInFile < finalBlockInRequest {
        PlaceNext(env, base + (blockInFile - f0), vp);
      }
    }

    /** do_direct_IO: one segment of the user's buffer, `base` being its address in dio blocks. */
    method DoDirectIO(ghost base: nat, ghost start: nat, ghost before: seq<Piece>, ghost zeros: seq<(Page, nat)>)
      returns (ret: int, ghost lost: bool)
      requires env.Valid()
      requires Before(start, before, zeros, base, blockInFile, env.FirstPage(base), firstBlockInPage)
      requires pageErrors == 0 || pageErrors == EFAULT
      modifies this`mapBh, this`blockInFile, this`blocksAvailable, this`nextBlockForIo, this`asked,
               this`submitted, this`bio, this`boundary, this`reapCounter, this`reaps, this`result, this`finalBlockInBio,
               this`curPage, this`curPageOffset, this`curPageLen, this`curPageBlock,
               this`startZeroDone, this`zeroed, this`pageErrors,
               this`pages, this`head, this`tail, this`currPage, this`currUserPage
      ensures old(blockInFile) <= blockInFile <= finalBlockInRequest
      ensures forall g: nat :: old(blockInFile) <= g < blockInFile ==> env.Passable(g)
      ensures lost ==> ret == EIO && CutShort(start, before, zeros, base, old(blockInFile))
      ensures !lost ==> OnTrack(start, before, zeros, base, old(blockInFile)) && result == old(result)
      ensures pageErrors == 0 || pageErrors == EFAULT
      ensures !lost ==>
        var hurt := old(pageErrors) != 0
                    || env.Faults(base, blockInFile - old(blockInFile), finalBlockInRequest - old(blockInFile));
        && (ret == 0 ==> (pageErrors == 0 <==> !hurt))
        && ret == if blockInFile == finalBlockInRequest then 0 else if hurt then EFAULT else env.StopRet(blockInFile)
      ensures ret == 0 && blockInFile < finalBlockInRequest ==>
        !env.write && env.At(blockInFile).Hole? && env.eof <= blockInFile
      ensures old(pageErrors) == 0 && env.NoFault(env.FirstPage(base), env.FirstPage(base) + totalPages) ==>
        && pageErrors == 0
        && (ret != 0 && !lost ==> blockInFile < finalBlockInRequest && !env.Passable(blockInFile))
      ensures old(asked) || (ret == 0 && old(blockInFile) < finalBlockInRequest) ==> asked
      ensures old(blockInFile) == finalBlockInRequest ==> ret == 0 && pageErrors == old(pageErrors)
      ensures old(pageErrors) == 0 && !old(asked) ==>
        (asked <==> old(blockInFile) < finalBlockInRequest && env.pages(env.FirstPage(base)).Some?)
    {
      hide Env.At, Env.FirstPage, Env.Valid, Env.Passable, Env.Covers, Env.Place, QueueOk, OnTrack, CutShort;
      ret, lost := 0, false;
      ghost var f0, lo := blockInFile, env.FirstPage(base);
      var blockInPage: nat := firstBlockInPage;
      ghost var vp := lo;
      while blockInFile < finalBlockInRequest
        invariant ret == 0 && !lost && f0 <= blockInFile <= finalBlockInRequest && lo <= vp <= lo + totalPages
        invariant Before(start, before, zeros, base, f0, vp, blockInPage) && result == old(result)
        invariant forall g: nat :: f0 <= g < blockInFile ==> env.Passable(g)
        invariant pageErrors == 0 || pageErrors == EFAULT
        invariant pageErrors == 0 <==> old(pageErrors) == 0 && env.NoFault(lo, vp)
        invariant f0 < blockInFile ==> env.FirstPage(base + (blockInFile - f0) - 1) + 1 == vp
        invariant f0 == blockInFile ==> vp == lo && asked == old(asked) && pageErrors == old(pageErrors)
        invariant f0 < blockInFile ==> asked && (old(pageErrors) == 0 && !old(asked) ==> env.pages(lo).Some?)
        decreases finalBlockInRequest - blockInFile
      {
        var stop;
        ret, stop, lost := NextPage(blockInPage, start, before, zeros, base, f0, vp);
        if stop { return; }
        blockInPage := 0;
        vp := vp + 1;
      }
    }

    /** What dio_zero_block emits at the end of the request. */
    ghost function EndZeros(): seq<Piece>
      reads this`mapBh, this`blockInFile, this`nextBlockForIo
    {
      var r := blockInFile % env.perFs;
      if mapBh.isNew && r != 0 then Cut(Vec(ZeroPage, 0, env.perFs - r), nextBlockForIo) else []
    }

    lemma EndZerosAsked(start: nat)
      requires MapOk(start) && asked
      ensures EndZeros()
           == if blocksAvailable == 0 && blockInFile == start then [] else env.TailZeros(blockInFile)
    {}

    /** Between two segments: what the segments so far ask for has been emitted and cleared. */
    ghost predicate Between(start: nat, before: seq<Piece>, zeros: seq<(Page, nat)>)
      reads this`startZeroDone, this`blockInFile, this`blocksAvailable, this`nextBlockForIo, this`mapBh,
            this`asked, this`zeroed, this`submitted, this`bio, this`finalBlockInBio,
            this`curPage, this`curPageOffset, this`curPageLen, this`curPageBlock
    {
      && BioOk() && MapOk(start) && HeadOk(start)
      && Emitted() == Head(start) + before && zeroed == zeros
    }

    /** After a loss: what is in BIOs is the beginning of what the segments ask for. */
    ghost predicate Partial(start: nat, pieces: seq<Piece>, zeros: seq<(Page, nat)>)
      reads this`startZeroDone, this`blockInFile, this`blocksAvailable, this`nextBlockForIo, this`mapBh,
            this`asked, this`zeroed, this`reapCounter, this`submitted, this`bio, this`finalBlockInBio,
            this`curPage, this`curPageOffset, this`curPageLen, this`curPageBlock
    {
      && BioOk() && MapOk(start) && asked && curPage.None? && (env.perFs > 1 ==> startZeroDone)
      && reapCounter == 0 && env.SomeFails()
      && Emitted() <= Head(start) + pieces && zeroed == zeros
    }

    lemma CutShortFailed(start: nat, before: seq<Piece>, zeros: seq<(Page, nat)>, base: nat, f0: nat)
      requires CutShort(start, before, zeros, base, f0)
      ensures result == EIO
    {}

    lemma CutShortIsPartial(start: nat, before: seq<Piece>, zeros: seq<(Page, nat)>, base: nat, f0: nat)
      requires CutShort(start, before, zeros, base, f0)
      ensures f0 <= blockInFile && asked
      ensures Partial(start, before + env.UserPieces(base, f0, blockInFile - f0),
                      zeros + env.HoleBlocks(base, f0, blockInFile - f0))
    {
      hide Emitted, MapOk;
      var more := env.UserPieces(base, f0, blockInFile - f0);
      assert Head(start) + before + more == Head(start) + (before + more);
    }

    lemma SegmentBegins(start: nat, before: seq<Piece>, zeros: seq<(Page, nat)>, base: nat)
      requires Between(start, before, zeros)
      ensures OnTrack(start, before, zeros, base, blockInFile)
    {
      hide Emitted, HeadOk;
      assert Head(start) + before + [] == Head(start) + before;
    }

    lemma SegmentEnds(start: nat, before: seq<Piece>, zeros: seq<(Page, nat)>, base: nat, f0: nat)
      requires OnTrack(start, before, zeros, base, f0)
      ensures f0 <= blockInFile && (!asked ==> blocksAvailable == 0)
      ensures Between(start, before + env.UserPieces(base, f0, blockInFile - f0),
                      zeros + env.HoleBlocks(base, f0, blockInFile - f0))
    {
      hide Emitted, HeadOk;
      var more := env.UserPieces(base, f0, blockInFile - f0);
      assert Head(start) + before + more == Head(start) + (before + more);
    }

    /** When the walk is over, zeroing in front was due exactly when a block was passed. */
    lemma HeadSettled(start: nat)
      requires HeadOk(start) && start <= blockInFile
      ensures Head(start) == if start < blockInFile then env.HeadZeros(start) else []
    {
      hide Emitted, Env.DiskOf;
      if env.perFs == 1 {
        assert Cut(Vec(ZeroPage, 0, 0), 0) == [];
        assert env.HeadZeros(start) == [];
      }
    }

    /**
      Sets up one segment of `blocks` dio blocks, from block `first` of page
      `userPage` on and lying in `count` pages.
    */
    method SetSegment(first: nat, blocks: nat, userPage: nat, count: nat,
                      ghost base: nat, ghost start: nat, ghost before: seq<Piece>, ghost zeros: seq<(Page, nat)>)
      requires Between(start, before, zeros) && (!asked ==> blocksAvailable == 0)
      requires env.Place(base, userPage, first) && first < env.perPage
      requires env.FirstPage(base) == userPage && env.Covers(base, blocks, count)
      modifies this`firstBlockInPage, this`finalBlockInRequest, this`head, this`tail, this`currPage,
               this`totalPages, this`currUserPage
      ensures Before(start, before, zeros, base, blockInFile, userPage, firstBlockInPage)
      ensures finalBlockInRequest == blockInFile + blocks && totalPages == count
    {
      hide Between, OnTrack, Env.FirstPage, Env.Covers, Env.Place;
      SegmentBegins(start, before, zeros, base);
      firstBlockInPage := first;
      finalBlockInRequest := blockInFile + blocks;
      head, tail, currPage := 0, 0, 0;
      totalPages := count;
      currUserPage := userPage;
    }

    method DoSegment(first: nat, blocks: nat, userPage: nat, count: nat,
                     ghost base: nat, ghost start: nat, ghost before: seq<Piece>, ghost zeros: seq<(Page, nat)>)
      returns (ret: int, ghost lost: bool)
      requires env.Valid() && Between(start, before, zeros) && (!asked ==> blocksAvailable == 0)
      requires env.Place(base, userPage, first) && first < env.perPage
      requires env.FirstPage(base) == userPage && env.Covers(base, blocks, count)
      requires pageErrors == 0 || pageErrors == EFAULT
      modifies this
      ensures old(blockInFile) <= blockInFile <= finalBlockInRequest == old(blockInFile) + blocks
      ensures !lost ==> result == old(result)
      ensures forall g: nat :: old(blockInFile) <= g < blockInFile ==> env.Passable(g)
      ensures !lost ==> (!asked ==> blocksAvailable == 0)
      ensures !lost ==>
        Between(start, before + env.UserPieces(base, old(blockInFile), blockInFile - old(blockInFile)),
                zeros + env.HoleBlocks(base, old(blockInFile), blockInFile - old(blockInFile)))
      ensures lost ==> ret == EIO && CutShort(start, before, zeros, base, old(blockInFile))
      ensures pageErrors == 0 || pageErrors == EFAULT
      ensures !lost ==>
        var hurt := old(pageErrors) != 0 || env.Faults(base, blockInFile - old(blockInFile), blocks);
        && (ret == 0 ==> (pageErrors == 0 <==> !hurt))
        && ret == if blockInFile == finalBlockInRequest then 0 else if hurt then EFAULT else env.StopRet(blockInFile)
      ensures ret == 0 && blockInFile < finalBlockInRequest ==>
        !env.write && env.At(blockInFile).Hole? && env.eof <= blockInFile
      ensures old(pageErrors) == 0 && env.NoFault(userPage, userPage + count) ==>
        && pageErrors == 0
        && (ret != 0 && !lost ==> blockInFile < finalBlockInRequest && !env.Passable(blockInFile))
      ensures old(asked) || (ret == 0 && blocks > 0) ==> asked
      ensures blocks == 0 ==> ret == 0 && pageErrors == old(pageErrors)
      ensures old(pageErrors) == 0 && !old(asked) ==> (asked <==> blocks > 0 && env.pages(userPage).Some?)
    {
      hide Between, Before, OnTrack, CutShort, Env.At, Env.FirstPage, Env.Valid, Env.Passable, Env.Covers,
           Env.Place, Env.UserPieces, Env.HoleBlocks, Env.Faults, Env.StopRet;
      ghost var f0 := blockInFile;
      SetSegment(first, blocks, userPage, count, base, start, before, zeros);
      ret, lost := DoDirectIO(base, start, before, zeros);
      if !lost {
        SegmentEnds(start, before, zeros, base, f0);
      }
    }

    /** The end of direct_io_worker's submission phase: zero the tail, send the deferred page, submit. */
    method Finish() returns (ret: int, ghost lost: bool)
      requires BioOk()
      modifies this`submitted, this`bio, this`boundary, this`reapCounter, this`reaps, this`result, this`finalBlockInBio,
               this`curPage, this`curPageOffset, this`curPageLen, this`curPageBlock,
               this`startZeroDone, this`nextBlockForIo
      ensures bio.None? && curPage.None?
      ensures if lost then ret == EIO || (ret == 0 && old(EndZeros()) != []) else ret == 0
      ensures !lost ==> CutBios(submitted) == old(Emitted()) + old(EndZeros()) && result == old(result)
      ensures lost ==> CutBios(submitted) <= old(Emitted()) + old(EndZeros()) && result == EIO && env.SomeFails()
      ensures old(curPage).None? && old(reapCounter) < 63 ==> !lost
      ensures old(Doomed()) && EndsInside() && old(curPage).Some? && old(curPage) != Some(ZeroPage) ==>
        lost && ret == 0
    {
      hide Cut, CutVecs, CutBios, EndZeros, BioOk, Env.SomeFails;
      lost, ret := false, 0;
      var r := ZeroBlock(true);
      if r != 0 { lost := true; }
      if curPage.Some? {
        ret := SendCurPage();
        if ret != 0 { lost := true; }
        curPage := None;
      }
      if bio.Some? {
        BioSubmit();
      }
      assert Sent() == CutBios(submitted);
    }

    /** The first |passed| segments are done, `passed` counting the blocks gone through in each. */
    ghost predicate Walked(start: nat, bases: seq<nat>, counts: seq<nat>, passed: seq<nat>)
      reads this
    {
      && |passed| <= |bases| == |counts|
      && blockInFile == start + Sum(passed)
      && (forall i :: 0 <= i < |passed| ==> passed[i] <= counts[i])
      && (forall g: nat :: start <= g < blockInFile ==> env.Passable(g))
    }

    /**
      The byte count: that of the blocks passed or, after a loss, the error;
      if that came during the walk the bytes of the segment under way were added to it.
    */
    ghost predicate Counted(bs: Pos, passed: seq<nat>, lost: bool, walking: bool)
      reads this`result
    {
      && (walking ==> lost && |passed| > 0)
      && result == (if !lost then Bytes(bs, Sum(passed))
                    else if walking then EIO + Bytes(bs, passed[|passed| - 1])
                    else EIO)
    }

    /** The walk goes as far as it can: `total` blocks, or up to a block it cannot pass. */
    ghost predicate Furthest(start: nat, total: nat)
      reads this`blockInFile
    {
      blockInFile == start + total || !env.Passable(blockInFile)
    }

    /** A read has come to a hole at or behind the end of the file. */
    ghost predicate AtEnd()
      reads this`blockInFile
    {
      !env.write && env.At(blockInFile).Hole? && env.eof <= blockInFile
    }

    ghost predicate Going(bs: Pos, start: nat, bases: seq<nat>, counts: seq<nat>, passed: seq<nat>, pins: bool)
      reads this
    {
      && Walked(start, bases, counts, passed) && result == Bytes(bs, Sum(passed))
      && Between(start, Body(env, start, bases, passed), Holes(env, start, bases, passed))
      && AskState(env, bases, counts, |passed|, asked)
      && (!asked ==> blocksAvailable == 0 && pageErrors == 0)
      && (pageErrors == 0 || pageErrors == EFAULT)
      && (pageErrors == 0 <==> !Faulted(env, bases, counts, passed))
      && (blockInFile == start + Sum(counts[..|passed|]) || (pageErrors == 0 && AtEnd()))
      && (pins ==> pageErrors == 0 && Furthest(start, Sum(counts[..|passed|])))
    }

    /** How the loop over the segments ends; `pins` says that every page of the buffer can be pinned. */
    ghost predicate Done(bs: Pos, start: nat, bases: seq<nat>, counts: seq<nat>, passed: seq<nat>,
                         pins: bool, lost: bool)
      reads this
    {
      && Walked(start, bases, counts, passed) && Counted(bs, passed, lost, lost)
      && (asked <==> Asks(env, bases, counts))
      && (!lost ==> Between(start, Body(env, start, bases, passed), Holes(env, start, bases, passed)))
      && (!lost && pins ==> Furthest(start, Sum(counts)))
      && (lost ==> Partial(start, Body(env, start, bases, passed), Holes(env, start, bases, passed)))
    }

    lemma GoingRet(bs: Pos, start: nat, bases: seq<nat>, counts: seq<nat>, passed: seq<nat>, pins: bool)
      requires Going(bs, start, bases, counts, passed, pins) && |passed| == |counts|
      ensures WalkRet(env, start, bases, counts, passed) == 0
    {
      hide Between, Body, Holes, AskState, Faulted, Sum;
      assert counts[..|passed|] == counts;
    }

    method StepSegment(s: Seg, bs: Pos, ghost start: nat, ghost bases: seq<nat>, ghost counts: seq<nat>,
                       ghost passed: seq<nat>, ghost pins: bool)
      returns (ret: int, ghost n: nat, ghost lost: bool)
      requires env.Valid() && env.Fits(bs) && s.Aligned(bs)
      requires |passed| < |bases| == |counts|
      requires bases[|passed|] == s.Base(bs) && counts[|passed|] == s.Count(bs)
      requires pins ==> env.NoFault(s.UserPage(), s.UserPage() + TotalPages(s))
      requires Going(bs, start, bases, counts, passed, pins)
      modifies this
      ensures ret != 0 ==> ret == if lost then EIO else WalkRet(env, start, bases, counts, passed + [n])
      ensures lost ==> ret != 0
      ensures ret == 0 ==> Going(bs, start, bases, counts, passed + [n], pins)
      ensures ret != 0 ==> Done(bs, start, bases, counts, passed + [n], pins, lost)
    {
      hide AskState, Asks, Between, Partial, CutShort, Env.FirstPage, Env.Valid, Env.At,
           Env.Covers, Env.Place, Env.NoFault, Env.UserPieces, Env.HoleBlocks, Body, Holes, Sum, TotalPages, Bytes,
           Env.Fits, Seg.Aligned, Seg.Base, Seg.Count, Seg.UserPage, Seg.FirstBlock,
           Faulted, Env.Faults, Env.StopRet;
      ghost var i, was, f0 := |passed|, asked, blockInFile;
      ghost var before, zeros := Body(env, start, bases, passed), Holes(env, start, bases, passed);
      SegmentGeometry(env, bs, s);
      ret, lost := DoSegment(s.FirstBlock(bs), s.Count(bs), s.UserPage(), TotalPages(s),
                             s.Base(bs), start, before, zeros);
      n := blockInFile - f0;
      assert f0 < blockInFile ==> env.Passable(f0);
      if lost {
        CutShortIsPartial(start, before, zeros, s.Base(bs), f0);
        assert result == EIO by { CutShortFailed(start, before, zeros, s.Base(bs), f0); }
      }
      BytesDone(s, bs, n, finalBlockInRequest - blockInFile, Sum(passed));
      BytesDone(s, bs, n, finalBlockInRequest - blockInFile, 0);
      NoBytes(bs);
      result := result + (s.len - Bytes(bs, finalBlockInRequest - blockInFile));
      PassSegment(env, start, bases, passed, n);
      FaultedStep(env, bases, counts, passed, n);
      SumLess(passed + [n], counts);
      SumPrefix(counts, i);
      AskStep(env, bases, counts, i, was, asked);
      if asked {
        AskEnd(env, bases, counts, i + 1, asked);
      }
    }

    /** The loop over the segments. */
    method WalkSegments(segs: seq<Seg>, bs: Pos, ghost start: nat, ghost bases: seq<nat>, ghost counts: seq<nat>,
                        ghost pins: bool)
      returns (ret: int, ghost passed: seq<nat>, ghost lost: bool)
      requires env.Valid() && env.Fits(bs) && forall i :: 0 <= i < |segs| ==> segs[i].Aligned(bs)
      requires |bases| == |counts| == |segs|
      requires forall i :: 0 <= i < |segs| ==> bases[i] == segs[i].Base(bs) && counts[i] == segs[i].Count(bs)
      requires pins ==> forall i :: 0 <= i < |segs| ==>
        env.NoFault(segs[i].UserPage(), segs[i].UserPage() + TotalPages(segs[i]))
      requires Going(bs, start, bases, counts, [], pins)
      modifies this
      ensures Done(bs, start, bases, counts, passed, pins, lost)
      ensures ret == 0 ==> |passed| == |segs|
      ensures ret == if lost then EIO else WalkRet(env, start, bases, counts, passed)
    {
      hide Env.Valid, Env.Fits, Env.NoFault, AskState, Asks, Between, Partial, Body, Holes, Sum, Furthest, TotalPages,
           Walked, Seg.Aligned, Seg.Base, Seg.Count, Seg.UserPage, Faulted;
      ret, passed, lost := 0, [], false;
      var i := 0;
      while i < |segs|
        invariant 0 <= i <= |segs| && |passed| == i && ret == 0 && !lost
        invariant Going(bs, start, bases, counts, passed, pins)
      {
        ghost var n: nat;
        ret, n, lost := StepSegment(segs[i], bs, start, bases, counts, passed, pins);
        passed := passed + [n];
        if ret != 0 { return; }
        i := i + 1;
      }
      assert counts[..i] == counts;
      AskEnd(env, bases, counts, i, asked);
      GoingRet(bs, start, bases, counts, passed, pins);
    }

    /**
      kmalloc and the initialisation in direct_io_worker: every field is set
      except map_bh, whose content is whatever was there.
    */
    constructor (e: Env, start: nat, stale: MapBh)
      ensures env == e && this.stale == stale && Fresh(start)
    {
      env, this.stale, mapBh, asked := e, stale, stale, false;
      submitted, bio, boundary, reapCounter, reaps, finalBlockInBio := [], None, false, 0, 0, -1;
      curPage, curPageOffset, curPageLen, curPageBlock := None, 0, 0, 0;
      blockInFile, finalBlockInRequest, blocksAvailable, nextBlockForIo := start, 0, 0, -1;
      startZeroDone, pageErrors, zeroed, result := false, 0, [], 0;
      pages, firstBlockInPage, head, tail, currPage, totalPages, currUserPage := [], 0, 0, 0, 0, 0, 0;
    }

    ghost predicate Fresh(start: nat)
      reads this
    {
      && !asked && mapBh == stale && submitted == [] && bio.None? && curPage.None? && zeroed == [] && result == 0
      && blockInFile == start && blocksAvailable == 0 && nextBlockForIo == -1
      && !startZeroDone && pageErrors == 0 && reapCounter == 0 && reaps == 0
    }

    lemma FreshIsBetween(start: nat)
      requires Fresh(start)
      ensures Between(start, [], [])
    {
      hide Env.DiskOf, Env.At, Env.Run, Env.HeadZeros;
      assert Emitted() == [];
    }

    lemma FreshIsGoing(bs: Pos, start: nat, bases: seq<nat>, counts: seq<nat>, pins: bool)
      requires Fresh(start) && |bases| == |counts|
      ensures Going(bs, start, bases, counts, [], pins)
    {
      hide Between, AskState;
      FreshIsBetween(start);
      AskBegin(env, bases, counts);
    }

    /** From the end of the walk to the BIOs: nothing but the request, and all of it. */
    lemma WalkIsRequest(bs: Pos, start: nat, bases: seq<nat>, counts: seq<nat>, passed: seq<nat>, pins: bool)
      requires Done(bs, start, bases, counts, passed, pins, false)
      ensures asked ==> Emitted() + EndZeros() == RequestPieces(env, start, bases, passed)
      ensures !asked ==>
        && Emitted() == [] == RequestPieces(env, start, bases, passed)
        && EndZeros() == StaleZeros(env, start, stale)
    {
      hide Emitted, Asks, Holes, Body, BioOk, Env.DiskOf, Env.Run, Env.Passable, Env.HeadZeros;
      HeadSettled(start);
      if Sum(passed) == 0 {
        NothingPassed(env, start, bases, passed);
      }
      if asked {
        EndZerosAsked(start);
      }
    }

    /** After a loss there may be pieces missing, but none that the request does not ask for. */
    lemma PartialIsPart(start: nat, body: seq<Piece>, zeros: seq<(Page, nat)>)
      requires Partial(start, body, zeros)
      ensures BioOk() && zeroed == zeros && curPage.None? && reapCounter == 0 && env.SomeFails()
      ensures CutFrom(Emitted() + EndZeros(), env.HeadZeros(start) + body, env.TailZeros(blockInFile))
    {
      hide Emitted, MapOk, BioOk, Env.HeadZeros, Env.TailZeros, EndZeros;
      EndZerosAsked(start);
      NoHeadZeros(env, start);
      var whole := env.HeadZeros(start) + body;
      assert Emitted() == whole[..|Emitted()|];
    }

    /** The byte count is that of the blocks passed if and only if nothing was lost. */
    lemma CountTells(bs: Pos, passed: seq<nat>, lost: bool, walking: bool)
      requires Counted(bs, passed, lost, walking)
      ensures lost <==> result != Bytes(bs, Sum(passed))
    {
      if walking {
        SumLast(bs, passed);
      }
    }

    lemma WalkIsPlanned(bs: Pos, start: nat, bases: seq<nat>, counts: seq<nat>, passed: seq<nat>, pins: bool, lost: bool)
      requires Done(bs, start, bases, counts, passed, pins, lost)
      ensures BioOk() && zeroed == Holes(env, start, bases, passed)
      ensures |passed| <= |bases| == |counts|
      ensures Planned(env, start, bases, counts, passed, stale, Emitted() + EndZeros(), lost)
      ensures lost ==> curPage.None? && reapCounter == 0 && env.SomeFails()
      ensures !lost && EndZeros() != [] ==> EndingZeros(env, start, bases, counts, passed, stale) != []
    {
      hide Asks, Emitted, EndZeros, Body, Holes, BioOk, MapOk, HeadOk, Head, Env.HeadZeros, Env.TailZeros, Furthest,
           CutFrom, RequestPieces, StaleZeros;
      if lost {
        PartialIsPart(start, Body(env, start, bases, passed), Holes(env, start, bases, passed));
      } else {
        WalkIsRequest(bs, start, bases, counts, passed, pins);
        if asked {
          EndZerosAsked(start);
        }
        RequestIsCutFrom(env, start, bases, passed);
        var r, z := RequestPieces(env, start, bases, passed), StaleZeros(env, start, stale);
        assert r + [] == r && [] + z == z;
      }
    }

    /**
      direct_io_worker up to the submission of the last BIO.  `passed` counts
      the blocks gone through in each segment; `lost` says that a deferred page
      was given up because an earlier BIO had failed.
    */
    method DirectIoWorker(segs: seq<Seg>, bs: Pos, ghost start: nat,
                          ghost bases: seq<nat>, ghost counts: seq<nat>, ghost pins: bool)
      returns (ret: int, ghost passed: seq<nat>, ghost lost: bool, ghost walking: bool)
      requires env.Valid() && env.Fits(bs) && forall i :: 0 <= i < |segs| ==> segs[i].Aligned(bs)
      requires |bases| == |counts| == |segs|
      requires forall i :: 0 <= i < |segs| ==> bases[i] == segs[i].Base(bs) && counts[i] == segs[i].Count(bs)
      requires pins ==> forall i :: 0 <= i < |segs| ==>
        env.NoFault(segs[i].UserPage(), segs[i].UserPage() + TotalPages(segs[i]))
      requires Fresh(start)
      modifies this
      ensures bio.None? && curPage.None?
      ensures Walked(start, bases, counts, passed) && Counted(bs, passed, lost, walking)
      ensures Returns(env, start, bases, counts, passed, stale, lost, walking, ret)
      ensures lost <==> result != Bytes(bs, Sum(passed))
      ensures lost ==> env.SomeFails()
      ensures !lost && pins ==> Furthest(start, Sum(counts))
      ensures zeroed == Holes(env, start, bases, passed)
      ensures !lost ==>
        CutBios(submitted) == RequestPieces(env, start, bases, passed)
                            + (if Asks(env, bases, counts) then [] else StaleZeros(env, start, stale))
      ensures lost && Asks(env, bases, counts) ==>
        CutFrom(CutBios(submitted), env.HeadZeros(start) + Body(env, start, bases, passed),
                env.TailZeros(start + Sum(passed)))
      ensures lost && !Asks(env, bases, counts) ==> CutBios(submitted) <= StaleZeros(env, start, stale)
    {
      hide Env.Valid, Env.Fits, Env.NoFault, Asks, Fresh, Furthest, Partial, TotalPages, Seg.Aligned, Seg.Base,
           Seg.Count, Seg.UserPage, Emitted, EndZeros, Body, Holes, CutBios, BioOk, MapOk, HeadOk, Head,
           Env.HeadZeros, Env.TailZeros, Env.Passable, CutFrom, RequestPieces, StaleZeros, Planned, Sum, Bytes,
           Env.SomeFails, WalkRet, EndingZeros;
      FreshIsGoing(bs, start, bases, counts, pins);
      ret, passed, lost := WalkSegments(segs, bs, start, bases, counts, pins);
      walking := lost;
      WalkIsPlanned(bs, start, bases, counts, passed, pins, lost);
      ghost var all := Emitted() + EndZeros();
      if ret == ENOTBLK && env.write {
        ret := 0;  // the rest is left to buffered I/O
      }
      var ret2;
      ret2, lost := Finish();
      SentAsPlanned(env, start, bases, counts, passed, stale, all, CutBios(submitted), walking, lost);
      if ret == 0 {
        ret := ret2;
      }
      lost := lost || walking;
      CountTells(bs, passed, lost, walking);
    }
  }

  /**
    Sixty-five scattered sections and the zeros of a new block behind them: the
    first reaping meets a failed BIO, within dio_zero_block.  Its error is
    dropped, but the byte count, which was right before, is gone.
  */
  method LostCountExample(e: Env) returns (dio: Dio, before: int, ret: int)
    requires e.perFs == 8 && e.failing(0)
    ensures before == 65 * 512 && ret == 0 && dio.result == EIO
  {
    hide Cut, CutBios, CutVecs, Env.SomeFails, Dio.Emitted, Dio.Sent, Dio.CurPieces;
    dio := new Dio(e, 0, MapBh(false, false, false, 0, 0));
    var _ := dio.SubmitPageSection(UserPage(0), 0, 1, 0);
    var k := 1;
    while k < 65
      invariant 1 <= k <= 65 && dio.env == e && dio.BioOk() && fresh(dio)
      invariant dio.curPage == Some(UserPage(k - 1)) && dio.curPageBlock == 2 * (k - 1) && dio.curPageLen == 1
      invariant dio.bio.Some? ==> dio.finalBlockInBio == 2 * (k - 2) + 1
      invariant dio.reapCounter == k - 1 && dio.reaps == 0
    {
      var _ := dio.SubmitPageSection(UserPage(k), 0, 1, 2 * k);
      k := k + 1;
    }
    dio.blockInFile, dio.result, dio.mapBh := 65, 65 * 512, MapBh(true, true, false, 128, 8);
    before := dio.result;
    ghost var lost;
    ret, lost := dio.Finish();
  }
}
