/**
  A direct I/O request in bytes: positions in the file, addresses, and bytes of
  the device, without dio blocks; and that the request in dio blocks is this one.
*/
module DirectIOBytes {
  import opened Common
  import opened DirectIO

  /** A dio block's worth of bytes from byte `at` of `page` goes with those from byte `disk` of the device. */
  datatype Span = Span(page: Page, at: nat, disk: int)

  /** The sizes of a file-system block and of a dio block, and the size of the file, in bytes. */
  datatype View = View(write: bool, isize: nat, fsSize: Pos, bs: Pos, fs: nat -> FsBlock, pages: nat -> Option<Page>)
  {
    /** What the file system answers for byte `pos` of the file. */
    function At(pos: nat): FsBlock { fs(pos / fsSize) }

    /** The byte of the device that holds byte `pos` of the file. */
    function DiskByte(pos: nat): int
      requires At(pos).Mapped?
    {
      At(pos).disk * fsSize + pos % fsSize
    }

    /** The walk goes past the block at byte `pos`: it is on disk, or a hole in a whole block of the file being read. */
    ghost predicate Passable(pos: nat) {
      At(pos).Mapped? || (!write && At(pos).Hole? && pos / bs < isize / bs)
    }

    /** The page that supplies address `a` of a segment at `addr`. */
    ghost function Supplier(addr: nat, a: nat): Page {
      if a / PAGE_SIZE >= addr / PAGE_SIZE
         && forall p: nat :: addr / PAGE_SIZE <= p <= a / PAGE_SIZE ==> pages(p).Some?
      then pages(a / PAGE_SIZE).value
      else ZeroPage
    }

    /** The first n blocks of a segment at `addr`, read or written at byte `pos` of the file. */
    ghost function SegmentSpans(addr: nat, pos: nat, n: nat): seq<Span> {
      if n == 0 then []
      else
        var k := Bytes(bs, n - 1);
        SegmentSpans(addr, pos, n - 1) +
        if At(pos + k).Mapped?
        then [Span(Supplier(addr, addr + k), (addr + k) % PAGE_SIZE, DiskByte(pos + k))]
        else []
    }

    /** Those of them that lie over holes: the page, and the byte in it. */
    ghost function SegmentHoles(addr: nat, pos: nat, n: nat): seq<(Page, nat)> {
      if n == 0 then []
      else
        var k := Bytes(bs, n - 1);
        SegmentHoles(addr, pos, n - 1) +
        if At(pos + k).Mapped? then [] else [(Supplier(addr, addr + k), (addr + k) % PAGE_SIZE)]
    }

    ghost function Spans(offset: nat, segs: seq<Seg>, passed: seq<nat>): seq<Span>
      requires |passed| <= |segs|
    {
      if passed == [] then []
      else
        var k := |passed| - 1;
        Spans(offset, segs, passed[..k])
        + SegmentSpans(segs[k].addr, offset + Bytes(bs, Sum(passed[..k])), passed[k])
    }

    ghost function Cleared(offset: nat, segs: seq<Seg>, passed: seq<nat>): seq<(Page, nat)>
      requires |passed| <= |segs|
    {
      if passed == [] then []
      else
        var k := |passed| - 1;
        Cleared(offset, segs, passed[..k])
        + SegmentHoles(segs[k].addr, offset + Bytes(bs, Sum(passed[..k])), passed[k])
    }

    /** n blocks of zeros for the device from byte `disk` on. */
    function Zeros(n: nat, disk: int): seq<Span> {
      seq(n, i requires 0 <= i < n => Span(ZeroPage, Bytes(bs, i), disk + Bytes(bs, i)))
    }

    function HeadZeros(pos: nat): seq<Span> {
      if At(pos).Mapped? && At(pos).isNew then Zeros(pos % fsSize / bs, At(pos).disk * fsSize) else []
    }

    function TailZeros(pos: nat): seq<Span> {
      if At(pos).Mapped? && At(pos).isNew && pos % fsSize != 0
      then Zeros((fsSize - pos % fsSize) / bs, DiskByte(pos))
      else []
    }

    /** The first page of the first segment that is not empty can be pinned. */
    ghost predicate Asks(segs: seq<Seg>) {
      exists k :: 0 <= k < |segs| && segs[k].len > 0 && pages(segs[k].addr / PAGE_SIZE).Some?
                  && forall j :: 0 <= j < k ==> segs[j].len == 0
    }

    /** The I/O that a request at byte `offset` of the file asks for. */
    ghost function RequestSpans(offset: nat, segs: seq<Seg>, passed: seq<nat>): seq<Span>
      requires |passed| <= |segs|
    {
      if Sum(passed) == 0 then []
      else HeadZeros(offset) + Spans(offset, segs, passed) + TailZeros(offset + Bytes(bs, Sum(passed)))
    }
  }

  /** The environment of the walk is that of the request in bytes. */
  ghost predicate Views(e: Env, v: View) {
    && e.write == v.write && e.fs == v.fs && e.pages == v.pages
    && e.perFs * v.bs == v.fsSize && e.perPage * v.bs == PAGE_SIZE && e.eof == v.isize / v.bs
  }

  function InBytes(ps: seq<Piece>, bs: Pos): seq<Span> {
    seq(|ps|, i requires 0 <= i < |ps| => Span(ps[i].page, Bytes(bs, ps[i].block), ps[i].disk * bs))
  }

  function CellsInBytes(cells: seq<(Page, nat)>, bs: Pos): seq<(Page, nat)> {
    seq(|cells|, i requires 0 <= i < |cells| => (cells[i].0, Bytes(bs, cells[i].1)))
  }

  lemma NothingInBytes(bs: Pos)
    ensures InBytes([], bs) == []
  {}

  lemma InBytesConcat(a: seq<Piece>, b: seq<Piece>, bs: Pos)
    ensures InBytes(a + b, bs) == InBytes(a, bs) + InBytes(b, bs)
  {
    hide Bytes;
  }

  lemma CellsConcat(a: seq<(Page, nat)>, b: seq<(Page, nat)>, bs: Pos)
    ensures CellsInBytes(a + b, bs) == CellsInBytes(a, bs) + CellsInBytes(b, bs)
  {
    hide Bytes;
  }

  /** g in units of w, and both in units of bs times as fine. */
  lemma Scaled(w: Pos, bs: Pos, g: nat)
    ensures w * bs >= 1 && Bytes(bs, g) / (w * bs) == g / w && Bytes(bs, g) % (w * bs) == Bytes(bs, g % w)
    ensures Bytes(bs, g) / bs == g
  {
    var q, r := g / w, g % w;
    assert g == q * w + r;
    assert g * bs == q * (w * bs) + r * bs by {
      assert (q * w + r) * bs == (q * w) * bs + r * bs;
      assert (q * w) * bs == q * (w * bs);
    }
    MulMonotone(1, w, bs);
    MulMonotone(r + 1, w, bs);
    assert (r + 1) * bs == r * bs + bs;
    MulMonotone(0, r, bs);
    DivModUnique(g * bs, w * bs, q, r * bs);
    DivModUnique(g * bs, bs, g, 0);
  }

  lemma BytesAdd(bs: Pos, m: nat, n: nat)
    ensures Bytes(bs, m + n) == Bytes(bs, m) + Bytes(bs, n)
  {}

  /** A block of the file: the same answer, the same place on disk, inside the file or not. */
  lemma FileBlock(e: Env, v: View, g: nat)
    requires Views(e, v)
    ensures v.At(Bytes(v.bs, g)) == e.At(g) && (v.Passable(Bytes(v.bs, g)) <==> e.Passable(g))
    ensures Bytes(v.bs, g) % v.fsSize == Bytes(v.bs, g % e.perFs)
    ensures e.At(g).Mapped? ==>
      && v.DiskByte(Bytes(v.bs, g)) == e.DiskOf(g) * v.bs
      && v.At(Bytes(v.bs, g)).disk * v.fsSize == e.At(g).disk * e.perFs * v.bs
  {
    Scaled(e.perFs, v.bs, g);
    if e.At(g).Mapped? {
      Distributed(e.At(g).disk, e.perFs, v.bs, g % e.perFs);
    }
  }

  lemma Distributed(d: nat, w: nat, bs: Pos, r: nat)
    ensures (d * w + r) * bs == d * (w * bs) + Bytes(bs, r) && d * w * bs == d * (w * bs)
  {}

  /** A block of the user's buffer: the same page, the same place in it. */
  lemma UserBlock(e: Env, v: View, base: nat, vb: nat)
    requires Views(e, v) && base <= vb
    ensures Bytes(v.bs, vb) % PAGE_SIZE == Bytes(v.bs, vb % e.perPage)
    ensures v.Supplier(Bytes(v.bs, base), Bytes(v.bs, vb)) == e.Source(e.FirstPage(base), vb / e.perPage)
  {
    Scaled(e.perPage, v.bs, base);
    Scaled(e.perPage, v.bs, vb);
    MulMonotone(base, vb, v.bs);
  }

  lemma BlockInBytes(e: Env, v: View, base: nat, k: nat, g: nat)
    requires Views(e, v)
    ensures Bytes(v.bs, base + k) == Bytes(v.bs, base) + Bytes(v.bs, k)
    ensures v.At(Bytes(v.bs, g)) == e.At(g)
    ensures var addr, a := Bytes(v.bs, base), Bytes(v.bs, base + k);
      InBytes(e.BlockPieces(base, base + k, g), v.bs)
      == if v.At(Bytes(v.bs, g)).Mapped?
         then [Span(v.Supplier(addr, a), a % PAGE_SIZE, v.DiskByte(Bytes(v.bs, g)))]
         else []
  {
    hide Views, Bytes, Env.At, Env.DiskOf, Env.Source, Env.FirstPage, View.At, View.DiskByte, View.Supplier;
    BytesAdd(v.bs, base, k);
    FileBlock(e, v, g);
    UserBlock(e, v, base, base + k);
  }

  lemma {:induction false} SegmentInBytes(e: Env, v: View, base: nat, file: nat, n: nat)
    requires Views(e, v)
    ensures InBytes(e.UserPieces(base, file, n), v.bs) == v.SegmentSpans(Bytes(v.bs, base), Bytes(v.bs, file), n)
  {
    hide Views, Bytes, Env.BlockPieces, InBytes, View.At, View.DiskByte, View.Supplier;
    if n == 0 {
      NothingInBytes(v.bs);
    } else {
      SegmentInBytes(e, v, base, file, n - 1);
      BytesAdd(v.bs, file, n - 1);
      BlockInBytes(e, v, base, n - 1, file + n - 1);
      InBytesConcat(e.UserPieces(base, file, n - 1), e.BlockPieces(base, base + n - 1, file + n - 1), v.bs);
    }
  }

  lemma CellInBytes(page: Page, block: nat, bs: Pos)
    ensures CellsInBytes([(page, block)], bs) == [(page, Bytes(bs, block))] && CellsInBytes([], bs) == []
  {}

  lemma HoleInBytes(e: Env, v: View, base: nat, k: nat)
    requires Views(e, v)
    ensures var addr, a := Bytes(v.bs, base), Bytes(v.bs, base) + Bytes(v.bs, k);
      CellsInBytes([(e.Source(e.FirstPage(base), (base + k) / e.perPage), (base + k) % e.perPage)], v.bs)
      == [(v.Supplier(addr, a), a % PAGE_SIZE)]
  {
    hide Views, Bytes, Env.Source, Env.FirstPage, View.Supplier, CellsInBytes;
    BytesAdd(v.bs, base, k);
    UserBlock(e, v, base, base + k);
    CellInBytes(e.Source(e.FirstPage(base), (base + k) / e.perPage), (base + k) % e.perPage, v.bs);
  }

  lemma {:induction false} SegmentHolesInBytes(e: Env, v: View, base: nat, file: nat, n: nat)
    requires Views(e, v)
    ensures CellsInBytes(e.HoleBlocks(base, file, n), v.bs)
         == v.SegmentHoles(Bytes(v.bs, base), Bytes(v.bs, file), n)
  {
    hide Views, Bytes, Env.At, Env.Source, Env.FirstPage, CellsInBytes, View.At, View.Supplier;
    if n == 0 {
      CellInBytes(ZeroPage, 0, v.bs);
    } else {
      var vb := base + n - 1;
      SegmentHolesInBytes(e, v, base, file, n - 1);
      BytesAdd(v.bs, file, n - 1);
      FileBlock(e, v, file + n - 1);
      HoleInBytes(e, v, base, n - 1);
      CellInBytes(ZeroPage, 0, v.bs);
      var last := if e.At(file + n - 1).Mapped? then []
                  else [(e.Source(e.FirstPage(base), vb / e.perPage), vb % e.perPage)];
      CellsConcat(e.HoleBlocks(base, file, n - 1), last, v.bs);
    }
  }

  lemma {:induction false} BodyInBytes(e: Env, v: View, start: nat, segs: seq<Seg>, bases: seq<nat>, passed: seq<nat>)
    requires Views(e, v) && |passed| <= |segs| == |bases|
    requires forall i :: 0 <= i < |segs| ==> segs[i].addr == Bytes(v.bs, bases[i])
    ensures InBytes(Body(e, start, bases, passed), v.bs) == v.Spans(Bytes(v.bs, start), segs, passed)
    ensures CellsInBytes(Holes(e, start, bases, passed), v.bs) == v.Cleared(Bytes(v.bs, start), segs, passed)
  {
    hide Views, Bytes, Sum, Env.UserPieces, Env.HoleBlocks, View.SegmentSpans, View.SegmentHoles;
    if passed != [] {
      var k := |passed| - 1;
      var file := start + Sum(passed[..k]);
      BodyInBytes(e, v, start, segs, bases, passed[..k]);
      BytesAdd(v.bs, start, Sum(passed[..k]));
      SegmentInBytes(e, v, bases[k], file, passed[k]);
      SegmentHolesInBytes(e, v, bases[k], file, passed[k]);
      InBytesConcat(Body(e, start, bases, passed[..k]), e.UserPieces(bases[k], file, passed[k]), v.bs);
      CellsConcat(Holes(e, start, bases, passed[..k]), e.HoleBlocks(bases[k], file, passed[k]), v.bs);
    }
  }

  lemma ZerosInBytes(v: View, n: nat, at: int)
    ensures InBytes(Cut(Vec(ZeroPage, 0, n), at), v.bs) == v.Zeros(n, at * v.bs)
  {
    forall i | 0 <= i < n ensures (at + i) * v.bs == at * v.bs + Bytes(v.bs, i) {}
  }

  lemma EdgesInBytes(e: Env, v: View, g: nat)
    requires Views(e, v)
    ensures InBytes(e.HeadZeros(g), v.bs) == v.HeadZeros(Bytes(v.bs, g))
    ensures InBytes(e.TailZeros(g), v.bs) == v.TailZeros(Bytes(v.bs, g))
  {
    hide Env.At, Env.DiskOf, View.At, View.DiskByte, InBytes, View.Zeros, Cut;
    FileBlock(e, v, g);
    assert InBytes([], v.bs) == [] by { NothingInBytes(v.bs); }
    var r := g % e.perFs;
    Scaled(1, v.bs, r);
    Scaled(1, v.bs, e.perFs - r);
    BytesAdd(v.bs, e.perFs - r, r);
    if e.At(g).Mapped? {
      ZerosInBytes(v, r, e.At(g).disk * e.perFs);
      ZerosInBytes(v, e.perFs - r, e.DiskOf(g));
    }
    assert Bytes(v.bs, r) == 0 <==> r == 0;
  }

  /** The pieces of a request in dio blocks are, in bytes, the request. */
  lemma RequestInBytes(e: Env, v: View, start: nat, segs: seq<Seg>, bases: seq<nat>, passed: seq<nat>)
    requires Views(e, v) && |passed| <= |segs| == |bases|
    requires forall i :: 0 <= i < |segs| ==> segs[i].addr == Bytes(v.bs, bases[i])
    ensures InBytes(RequestPieces(e, start, bases, passed), v.bs) == v.RequestSpans(Bytes(v.bs, start), segs, passed)
  {
    hide Views, Bytes, Sum, Env.HeadZeros, Env.TailZeros, View.HeadZeros, View.TailZeros, Body, View.Spans, InBytes;
    var end := start + Sum(passed);
    NothingInBytes(v.bs);
    BodyInBytes(e, v, start, segs, bases, passed);
    EdgesInBytes(e, v, start);
    EdgesInBytes(e, v, end);
    BytesAdd(v.bs, start, Sum(passed));
    var head, body, tail := e.HeadZeros(start), Body(e, start, bases, passed), e.TailZeros(end);
    InBytesConcat(head, body, v.bs);
    InBytesConcat(head + body, tail, v.bs);
  }
}
