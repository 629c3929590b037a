/**
  The entry point of direct I/O: the choice of the block size of a request, and
  what the whole request does.
*/
module DirectIORequest {
  import opened Common
  import opened DirectIO
  import opened DirectIOBytes

  const EINVAL: int := -22

  /** Offset, addresses and lengths are multiples of `1 << bits`. */
  predicate AllAligned(offset: nat, segs: seq<Seg>, bits: nat) {
    offset % Pow2(bits) == 0 && forall i :: 0 <= i < |segs| ==> segs[i].Aligned(Pow2(bits))
  }

  lemma AlignedFiner(s: Seg, a: nat, b: nat)
    requires b <= a && s.Aligned(Pow2(a))
    ensures s.Aligned(Pow2(b))
  {
    Pow2Divides(s.addr, a, b);
    Pow2Divides(s.len, a, b);
  }

  /**
    The coarsest of the two block sizes that fits everything: that of the file
    system or, with a block device, its hard sector size.
  */
  method ChooseBlkbits(offset: nat, segs: seq<Seg>, fsBits: nat, bdevBits: Option<nat>)
    returns (r: Option<nat>)
    requires bdevBits.Some? ==> bdevBits.value <= fsBits
    ensures r == if AllAligned(offset, segs, fsBits) then Some(fsBits)
                 else if bdevBits.Some? && AllAligned(offset, segs, bdevBits.value) then bdevBits
                 else None
  {
    var blkbits := fsBits;
    if offset % Pow2(blkbits) != 0 {
      if bdevBits.Some? {
        blkbits := bdevBits.value;
      }
      if offset % Pow2(blkbits) != 0 {
        return None;
      }
    }
    if bdevBits.Some? && offset % Pow2(fsBits) == 0 {
      Pow2Divides(offset, fsBits, bdevBits.value);
    }
    var i := 0;
    while i < |segs|
      invariant 0 <= i <= |segs|
      invariant blkbits == fsBits || (bdevBits == Some(blkbits) && !AllAligned(offset, segs, fsBits))
      invariant AllAligned(offset, segs[..i], blkbits)
      invariant bdevBits.Some? ==> AllAligned(offset, segs[..i], bdevBits.value)
    {
      var s := segs[i];
      if bdevBits.Some? && s.Aligned(Pow2(fsBits)) {
        AlignedFiner(s, fsBits, bdevBits.value);
      }
      if !s.Aligned(Pow2(blkbits)) {
        if bdevBits.Some? {
          blkbits := bdevBits.value;
        }
        if !s.Aligned(Pow2(blkbits)) {
          return None;
        }
      }
      i := i + 1;
    }
    assert segs[..i] == segs;
    return Some(blkbits);
  }

  // ------------------------------------------------------------------
  // What the pieces of a request are
  // ------------------------------------------------------------------

  /** How many of the blocks file..file+n are mapped. */
  ghost function MappedCount(e: Env, file: nat, n: nat): nat {
    if n == 0 then 0 else MappedCount(e, file, n - 1) + if e.At(file + n - 1).Mapped? then 1 else 0
  }

  /** Each mapped block gives one piece, in order: its own user block with its own disk block. */
  lemma {:induction false} PiecePerMappedBlock(e: Env, base: nat, file: nat, n: nat)
    ensures |e.UserPieces(base, file, n)| == MappedCount(e, file, n)
    ensures forall k: nat :: k < n && e.At(file + k).Mapped? ==>
      && MappedCount(e, file, k) < MappedCount(e, file, n)
      && e.UserPieces(base, file, n)[MappedCount(e, file, k)]
         == Piece(e.Source(e.FirstPage(base), (base + k) / e.perPage), (base + k) % e.perPage, e.DiskOf(file + k))
  {
    hide Env.At, Env.Source, Env.FirstPage, Env.DiskOf;
    if n > 0 {
      PiecePerMappedBlock(e, base, file, n - 1);
    }
  }

  function Disks(ps: seq<Piece>): seq<int> {
    seq(|ps|, i requires 0 <= i < |ps| => ps[i].disk)
  }

  /** The disk blocks of file blocks lo..hi, in order. */
  ghost function DisksOf(e: Env, lo: nat, hi: nat): seq<int>
    requires lo <= hi && forall g: nat :: lo <= g < hi ==> e.At(g).Mapped?
  {
    seq(hi - lo, i requires 0 <= i < hi - lo => e.DiskOf(lo + i))
  }

  lemma DisksConcat(a: seq<Piece>, b: seq<Piece>)
    ensures Disks(a + b) == Disks(a) + Disks(b)
  {}

  lemma DisksSplit(e: Env, lo: nat, mid: nat, hi: nat)
    requires lo <= mid <= hi && forall g: nat :: lo <= g < hi ==> e.At(g).Mapped?
    ensures DisksOf(e, lo, hi) == DisksOf(e, lo, mid) + DisksOf(e, mid, hi)
  {
    hide Env.At, Env.DiskOf;
  }

  lemma {:induction false} UserDisks(e: Env, base: nat, file: nat, n: nat)
    requires forall g: nat :: file <= g < file + n ==> e.At(g).Mapped?
    ensures Disks(e.UserPieces(base, file, n)) == DisksOf(e, file, file + n)
  {
    hide Env.At, Env.Source, Env.DiskOf;
    if n > 0 {
      UserDisks(e, base, file, n - 1);
      DisksConcat(e.UserPieces(base, file, n - 1), e.BlockPieces(base, base + n - 1, file + n - 1));
      DisksSplit(e, file, file + n - 1, file + n);
    }
  }

  lemma {:induction false} BodyDisks(e: Env, start: nat, bases: seq<nat>, passed: seq<nat>)
    requires |passed| <= |bases|
    requires forall g: nat :: start <= g < start + Sum(passed) ==> e.At(g).Mapped?
    ensures Disks(Body(e, start, bases, passed)) == DisksOf(e, start, start + Sum(passed))
  {
    hide Env.At, Env.DiskOf, Env.UserPieces;
    if passed != [] {
      var k := |passed| - 1;
      var mid := start + Sum(passed[..k]);
      BodyDisks(e, start, bases, passed[..k]);
      UserDisks(e, bases[k], mid, passed[k]);
      DisksConcat(Body(e, start, bases, passed[..k]), e.UserPieces(bases[k], mid, passed[k]));
      DisksSplit(e, start, mid, mid + passed[k]);
    }
  }

  /** Blocks of one file-system block: the same answer, consecutive on disk. */
  lemma SameFsBlockRange(e: Env, f: nat, g: nat)
    requires f / e.perFs == g / e.perFs && e.At(f).Mapped?
    ensures e.At(g) == e.At(f) && e.DiskOf(g) == e.DiskOf(f) + (g - f)
  {
    assert f == (f / e.perFs) * e.perFs + f % e.perFs;
    assert g == (g / e.perFs) * e.perFs + g % e.perFs;
  }

  /** Where the request begins and ends once new file-system blocks are filled up with zeros. */
  ghost function RoundedLo(e: Env, start: nat): nat {
    if e.At(start).Mapped? && e.At(start).isNew then start - start % e.perFs else start
  }

  ghost function RoundedHi(e: Env, end: nat): nat {
    if end % e.perFs != 0 && e.At(end).Mapped? && e.At(end).isNew then end + (e.perFs - end % e.perFs) else end
  }

  lemma RangeInBlock(w: Pos, f: nat, g: nat)
    requires f - f % w <= g < f - f % w + w
    ensures g / w == f / w
  {
    assert f == (f / w) * w + f % w;
    DivModUnique(g, w, f / w, g - (f - f % w));
  }

  /** The zeros in front go with the file blocks between the rounded start and the start. */
  lemma HeadDisks(e: Env, start: nat)
    ensures forall g: nat :: RoundedLo(e, start) <= g < start ==> e.At(g) == e.At(start)
    ensures RoundedLo(e, start) <= start
    ensures Disks(e.HeadZeros(start)) == if e.At(start).Mapped? then DisksOf(e, RoundedLo(e, start), start) else []
  {
    hide Env.At, Env.DiskOf;
    var lo := RoundedLo(e, start);
    if e.At(start).Mapped? {
      forall g: nat | lo <= g < start
        ensures e.At(g) == e.At(start) && e.DiskOf(g) == e.At(start).disk * e.perFs + (g - lo)
      {
        RangeInBlock(e.perFs, start, g);
        SameFsBlockRange(e, start, g);
        DiskOfStart(e, start);
      }
    }
  }

  lemma DiskOfStart(e: Env, start: nat)
    requires e.At(start).Mapped?
    ensures e.DiskOf(start) == e.At(start).disk * e.perFs + start % e.perFs
  {}

  lemma TailDisks(e: Env, end: nat)
    ensures end <= RoundedHi(e, end)
    ensures forall g: nat :: end <= g < RoundedHi(e, end) ==> e.At(end).Mapped? && e.At(g) == e.At(end)
    ensures Disks(e.TailZeros(end)) == DisksOf(e, end, RoundedHi(e, end))
  {
    hide Env.At, Env.DiskOf;
    var hi := RoundedHi(e, end);
    if end < hi {
      forall g: nat | end <= g < hi
        ensures e.At(g) == e.At(end) && e.DiskOf(g) == e.DiskOf(end) + (g - end)
      {
        RangeInBlock(e.perFs, end, g);
        SameFsBlockRange(e, end, g);
      }
    }
  }

  /**
    A request over mapped blocks puts under I/O exactly the disk blocks of the
    file range it covers, rounded out to whole file-system blocks where those
    are new, each once and in order.
  */
  lemma RequestCoversRange(e: Env, start: nat, bases: seq<nat>, passed: seq<nat>)
    requires |passed| <= |bases| && Sum(passed) > 0
    requires forall g: nat :: start <= g < start + Sum(passed) ==> e.At(g).Mapped?
    ensures RoundedLo(e, start) <= start && start + Sum(passed) <= RoundedHi(e, start + Sum(passed))
    ensures forall g: nat :: RoundedLo(e, start) <= g < RoundedHi(e, start + Sum(passed)) ==> e.At(g).Mapped?
    ensures Disks(RequestPieces(e, start, bases, passed))
         == DisksOf(e, RoundedLo(e, start), RoundedHi(e, start + Sum(passed)))
  {
    hide Env.At, Env.DiskOf, RoundedLo, RoundedHi, Env.HeadZeros, Env.TailZeros, Body, Sum;
    var end := start + Sum(passed);
    var lo, hi := RoundedLo(e, start), RoundedHi(e, end);
    assert e.At(start).Mapped?;
    HeadDisks(e, start);
    BodyDisks(e, start, bases, passed);
    TailDisks(e, end);
    DisksConcat(e.HeadZeros(start), Body(e, start, bases, passed));
    DisksConcat(e.HeadZeros(start) + Body(e, start, bases, passed), e.TailZeros(end));
    DisksSplit(e, lo, start, end);
    DisksSplit(e, lo, end, hi);
  }

  // ------------------------------------------------------------------
  // The whole request
  // ------------------------------------------------------------------

  lemma BlocksFillPage(blkbits: nat)
    requires 9 <= blkbits <= 12
    ensures PAGE_SIZE / Pow2(blkbits) >= 1 && (PAGE_SIZE / Pow2(blkbits)) * Pow2(blkbits) == PAGE_SIZE
  {
    assert Pow2(3) == 8;
    assert Pow2(6) == 8 * Pow2(3);
    assert Pow2(9) == 8 * Pow2(6);
    assert Pow2(10) == 1024 && Pow2(11) == 2048 && Pow2(12) == 4096;
  }

  function RequestEnv(write: bool, blkbits: nat, fsBits: nat, isize: nat,
                      fs: nat -> FsBlock, pages: nat -> Option<Page>, failing: nat -> bool): (e: Env)
    requires 9 <= blkbits <= fsBits && blkbits <= 12
    ensures Views(e, View(write, isize, Pow2(fsBits), Pow2(blkbits), fs, pages)) && e.failing == failing
  {
    BlocksFillPage(blkbits);
    Pow2Add(fsBits - blkbits, blkbits);
    Env(write, Pow2(fsBits - blkbits), PAGE_SIZE / Pow2(blkbits), isize / Pow2(blkbits), fs, pages, failing)
  }

  ghost function Bases(segs: seq<Seg>, bs: Pos): seq<nat> {
    seq(|segs|, i requires 0 <= i < |segs| => segs[i].Base(bs))
  }

  ghost function Counts(segs: seq<Seg>, bs: Pos): seq<nat> {
    seq(|segs|, i requires 0 <= i < |segs| => segs[i].Count(bs))
  }

  /** Every page of the user's buffer can be pinned. */
  ghost predicate AllPinned(e: Env, segs: seq<Seg>) {
    forall i :: 0 <= i < |segs| ==>
      e.NoFault(segs[i].UserPage(), segs[i].UserPage() + TotalPages(segs[i]))
  }

  /** The outcome of a request of block size `bs` that begins at file block `start`. */
  ghost predicate Performed(dio: Dio, segs: seq<Seg>, bs: Pos, start: nat, stale: MapBh,
                            passed: seq<nat>, lost: bool, walking: bool, ret: int)
    reads dio
  {
    var bases, counts := Bases(segs, bs), Counts(segs, bs);
    // every BIO is on its way
    && dio.bio.None? && dio.curPage.None?
    // the blocks passed can all be passed, and the byte count is theirs exactly if nothing was lost
    && dio.Walked(start, bases, counts, passed)
    && dio.Counted(bs, passed, lost, walking)
    && (lost <==> dio.result != Bytes(bs, Sum(passed)))
    && (lost ==> dio.env.SomeFails())
    // 0, or what stopped the walk, or an I/O error that came to light
    && Returns(dio.env, start, bases, counts, passed, stale, lost, walking, ret)
    // without page faults the walk goes as far as possible
    && (!lost && AllPinned(dio.env, segs) ==> dio.Furthest(start, Sum(counts)))
    // a read's holes are cleared
    && dio.zeroed == Holes(dio.env, start, bases, passed)
    // the BIOs are the request
    && (!lost ==>
          CutBios(dio.submitted) == RequestPieces(dio.env, start, bases, passed)
                                  + (if Asks(dio.env, bases, counts) then [] else StaleZeros(dio.env, start, stale)))
    // after a loss they are the beginning of it, and perhaps of its tail
    && (lost ==>
          if Asks(dio.env, bases, counts)
          then CutFrom(CutBios(dio.submitted), dio.env.HeadZeros(start) + Body(dio.env, start, bases, passed),
                       dio.env.TailZeros(start + Sum(passed)))
          else CutBios(dio.submitted) <= StaleZeros(dio.env, start, stale))
  }

  /**
    The same in bytes.  Byte b of what is passed of the buffer goes with byte
    offset + b of the file, wherever that lies on the device; a hole is passed,
    and cleared, only in a whole block of the file.
  */
  ghost predicate PerformedInBytes(dio: Dio, v: View, offset: nat, segs: seq<Seg>, passed: seq<nat>, lost: bool)
    reads dio
  {
    && |passed| <= |segs|
    && (forall k: nat {:trigger Bytes(v.bs, k)} :: k < Sum(passed) ==> v.Passable(offset + Bytes(v.bs, k)))
    && CellsInBytes(dio.zeroed, v.bs) == v.Cleared(offset, segs, passed)
    && (!lost && v.Asks(segs) ==> InBytes(CutBios(dio.submitted), v.bs) == v.RequestSpans(offset, segs, passed))
  }

  lemma SomeCount(s: Seg, bs: Pos)
    requires s.Aligned(bs)
    ensures s.Count(bs) > 0 <==> s.len > 0
  {
    assert s.len == s.Count(bs) * bs;
  }

  lemma FirstPageIs(e: Env, v: View, s: Seg)
    requires Views(e, v) && s.Aligned(v.bs)
    ensures e.pages == v.pages && e.FirstPage(s.Base(v.bs)) == s.addr / PAGE_SIZE
  {
    hide Env.Covers, Env.Place, TotalPages;
    SegmentGeometry(e, v.bs, s);
  }

  lemma AsksInBytes(e: Env, v: View, segs: seq<Seg>)
    requires Views(e, v) && forall i :: 0 <= i < |segs| ==> segs[i].Aligned(v.bs)
    requires v.Asks(segs)
    ensures Asks(e, Bases(segs, v.bs), Counts(segs, v.bs))
  {
    hide Views, Env.FirstPage, Seg.Aligned, Seg.Base, Seg.Count;
    var k :| 0 <= k < |segs| && segs[k].len > 0 && v.pages(segs[k].addr / PAGE_SIZE).Some?
             && forall j :: 0 <= j < k ==> segs[j].len == 0;
    forall i | 0 <= i < |segs| ensures segs[i].Count(v.bs) > 0 <==> segs[i].len > 0 {
      SomeCount(segs[i], v.bs);
    }
    FirstPageIs(e, v, segs[k]);
    assert FirstNonEmpty(Counts(segs, v.bs), k);
  }

  /** A request performed in dio blocks is performed in bytes. */
  lemma BlocksAreBytes(dio: Dio, v: View, offset: nat, segs: seq<Seg>, start: nat, stale: MapBh,
                       passed: seq<nat>, lost: bool, walking: bool, ret: int)
    requires Views(dio.env, v) && Bytes(v.bs, start) == offset
    requires forall i :: 0 <= i < |segs| ==> segs[i].Aligned(v.bs)
    requires Performed(dio, segs, v.bs, start, stale, passed, lost, walking, ret)
    ensures PerformedInBytes(dio, v, offset, segs, passed, lost)
  {
    hide Dio.Counted, Dio.Furthest, Returns, Env.SomeFails, AllPinned, Body, Holes, RequestPieces, StaleZeros, CutBios,
         Sum, CutFrom, Env.HeadZeros, Env.TailZeros, Env.Passable, Asks, Bytes, InBytes, CellsInBytes, Views, Seg.Aligned,
         Bases, Counts, View.Asks, View.Passable, View.RequestSpans, View.Cleared;
    var e, bases := dio.env, Bases(segs, v.bs);
    BasesInBytes(segs, v.bs);
    BodyInBytes(e, v, start, segs, bases, passed);
    RequestInBytes(e, v, start, segs, bases, passed);
    forall k: nat | k < Sum(passed) ensures v.Passable(offset + Bytes(v.bs, k)) {
      BytesAdd(v.bs, start, k);
      FileBlock(e, v, start + k);
      assert e.Passable(start + k);
    }
    if v.Asks(segs) {
      AsksInBytes(e, v, segs);
      assert RequestPieces(e, start, bases, passed) + [] == RequestPieces(e, start, bases, passed);
    }
  }

  lemma BasesInBytes(segs: seq<Seg>, bs: Pos)
    requires forall i :: 0 <= i < |segs| ==> segs[i].Aligned(bs)
    ensures |Bases(segs, bs)| == |segs| && forall i :: 0 <= i < |segs| ==> segs[i].addr == Bytes(bs, Bases(segs, bs)[i])
  {}

  /**
    The uninitialised map_bh matters exactly when get_blocks was never called,
    the request begins inside a file-system block, and the stale bits say "new":
    then the BIOs hold what the request does not ask for.
  */
  lemma StaleZerosCondition(dio: Dio, segs: seq<Seg>, bs: Pos, start: nat, stale: MapBh, passed: seq<nat>,
                            ret: int)
    requires Performed(dio, segs, bs, start, stale, passed, false, false, ret)
    requires !Asks(dio.env, Bases(segs, bs), Counts(segs, bs))
    ensures |passed| <= |segs|
    ensures CutBios(dio.submitted) == RequestPieces(dio.env, start, Bases(segs, bs), passed)
      <==> !stale.isNew || start % dio.env.perFs == 0
  {
    hide Asks, CutBios, RequestPieces, Holes, Dio.Furthest, Dio.Counted, AllPinned;
    var e := dio.env;
    var asked, stray := RequestPieces(e, start, Bases(segs, bs), passed), StaleZeros(e, start, stale);
    if stale.isNew && start % e.perFs != 0 {
      assert |stray| == e.perFs - start % e.perFs;
      assert |asked + stray| > |asked|;
    } else {
      assert asked + [] == asked;
    }
  }

  /**
    __blockdev_direct_IO: a request is refused exactly when neither block size
    fits it; otherwise, for every block map and every page fault, it is
    performed as `Performed` says, and `PerformedInBytes`.
  */
  method BlockdevDirectIO(write: bool, offset: nat, segs: seq<Seg>, fsBits: nat, bdevBits: Option<nat>, isize: nat,
                          fs: nat -> FsBlock, pages: nat -> Option<Page>, failing: nat -> bool, stale: MapBh)
    returns (ret: int, dio: Dio?, blkbits: nat, ghost start: nat, ghost passed: seq<nat>, ghost lost: bool,
             ghost walking: bool)
    requires 9 <= fsBits <= 12 && (bdevBits.Some? ==> 9 <= bdevBits.value <= fsBits)
    requires ValidMap(write, fs)
    ensures dio == null <==>
      && !AllAligned(offset, segs, fsBits)
      && (bdevBits.None? || !AllAligned(offset, segs, bdevBits.value))
    ensures dio == null ==> ret == EINVAL
    ensures dio != null ==>
      && blkbits == (if AllAligned(offset, segs, fsBits) then fsBits else bdevBits.value) && fresh(dio)
      && Views(dio.env, View(write, isize, Pow2(fsBits), Pow2(blkbits), fs, pages))
      && dio.env.failing == failing && Bytes(Pow2(blkbits), start) == offset
      && Performed(dio, segs, Pow2(blkbits), start, stale, passed, lost, walking, ret)
      && PerformedInBytes(dio, View(write, isize, Pow2(fsBits), Pow2(blkbits), fs, pages), offset, segs, passed, lost)
  {
    hide Dio.Walked, Dio.Furthest, Env.NoFault, Body, Holes, RequestPieces, Asks, StaleZeros, CutBios, Returns,
         Env.HeadZeros, Env.TailZeros, TotalPages, Seg.Base, Seg.Count, Seg.UserPage, Seg.Aligned, Sum, Pow2,
         Dio.Fresh, Dio.Counted, Env.SomeFails, Bytes, CutFrom, ValidMap, PerformedInBytes;
    ret, dio, blkbits, start, passed, lost, walking := EINVAL, null, fsBits, 0, [], false, false;
    var chosen := ChooseBlkbits(offset, segs, fsBits, bdevBits);
    if chosen.None? { return; }
    blkbits := chosen.value;
    var bs: Pos := Pow2(blkbits);
    var e := RequestEnv(write, blkbits, fsBits, isize, fs, pages, failing);
    WholeBlocks(offset, bs);
    start := offset / bs;
    dio := new Dio(e, offset / bs, stale);
    ret, passed, lost, walking := dio.DirectIoWorker(segs, bs, start, Bases(segs, bs), Counts(segs, bs),
                                                     AllPinned(e, segs));
    BlocksAreBytes(dio, View(write, isize, Pow2(fsBits), bs, fs, pages), offset, segs, start, stale,
                   passed, lost, walking, ret);
  }

  lemma WholeBlocks(offset: nat, bs: Pos)
    requires offset % bs == 0
    ensures Bytes(bs, offset / bs) == offset
  {}

  lemma SectorSizes()
    ensures Pow2(3) == 8 && Pow2(9) == 512 && Pow2(12) == 4096
  {
    assert Pow2(6) == 8 * Pow2(3);
    assert Pow2(9) == 8 * Pow2(6);
    assert Pow2(12) == 8 * Pow2(9);
  }

  lemma SecondSector(e: Env, v: View, start: nat)
    requires Views(e, v) && v.fsSize == 4096 && v.bs == 512 && Bytes(512, start) == 512
    ensures start == 1 && e.perFs == 8 && e.write == v.write && e.fs == v.fs && e.pages == v.pages
  {}

  /** In a file of holes, a write from a page that faults maps nothing and passes nothing. */
  lemma NothingMapped(e: Env, passed: seq<nat>, dio: Dio, start: nat, segs: seq<Seg>)
    requires segs == [Seg(0, 512)] && e == dio.env && e.write && (forall g :: e.fs(g) == Hole) && e.pages(0) == None
    requires dio.Walked(start, Bases(segs, 512), Counts(segs, 512), passed)
    ensures !Asks(e, Bases(segs, 512), Counts(segs, 512)) && |passed| <= 1 && Sum(passed) == 0
  {
    assert Bases(segs, 512) == [0] && Counts(segs, 512) == [1];
    assert Sum(passed) > 0 ==> e.Passable(start);
  }

  /** A write at sector 1 of a file with eight sectors per block, from an unmapped page: zeros go to block -1. */
  method StaleZerosExample(stale: MapBh) returns (dio: Dio?)
    requires stale.isNew
    ensures dio != null && dio.result == 0
    ensures |CutBios(dio.submitted)| > 0 && CutBios(dio.submitted)[0] == Piece(ZeroPage, 0, -1)
  {
    hide CutBios, Dio.Furthest, Dio.Walked, AllPinned, Asks, Body, CutFrom, Holes, Bytes, Pow2, Sum, Bases, Counts,
         Views, PerformedInBytes, Returns;
    var segs := [Seg(0, 512)];
    SectorSizes();
    var ret, blkbits;
    ghost var start, passed, lost, walking;
    ret, dio, blkbits, start, passed, lost, walking :=
      BlockdevDirectIO(true, 512, segs, 12, Some(9), 51200, g => Hole, p => None, n => false, stale);
    SecondSector(dio.env, View(true, 51200, Pow2(12), Pow2(9), g => Hole, p => None), start);
    NothingMapped(dio.env, passed, dio, 1, segs);
    NoBytes(512);
  }
}
