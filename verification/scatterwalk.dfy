/** Walking a scatterlist over physical memory, page by page. */
module Scatterwalk {
  import opened Common

  /** A run of `length` bytes that starts at `offset` in `page`. */
  datatype Entry = Entry(page: nat, offset: nat, length: nat)

  /** struct scatter_walk; `entry` is the index of walk->sg. */
  datatype Walk = Walk(entry: nat, page: nat, offset: nat, lenPage: nat, lenSegment: nat)

  /** The addresses from `base` on. */
  function Run(base: nat, length: nat): (s: seq<nat>)
    ensures |s| == length
  {
    seq(length, i requires 0 <= i => base + i)
  }

  /** The memory a list stands for, byte by byte. */
  function Addresses(sg: seq<Entry>, size: Pos): seq<nat> {
    if sg == [] then [] else Run(sg[0].page * size + sg[0].offset, sg[0].length) + Addresses(sg[1..], size)
  }

  ghost predicate ListOk(sg: seq<Entry>, size: Pos) {
    forall i :: 0 <= i < |sg| ==> sg[i].offset < size
  }

  ghost predicate WalkOk(w: Walk, sg: seq<Entry>, size: Pos) {
    w.entry < |sg| && w.offset <= size && w.lenPage == Min(w.lenSegment, size - w.offset) && ListOk(sg, size)
  }

  function Place(w: Walk, size: Pos): nat {
    w.page * size + w.offset
  }

  /** What the walk has yet to pass over. */
  function Rest(w: Walk, sg: seq<Entry>, size: Pos): seq<nat>
    requires w.entry < |sg|
  {
    Run(Place(w, size), w.lenSegment) + Addresses(sg[w.entry + 1..], size)
  }

  /** scatterwalk_start */
  function Start(sg: seq<Entry>, entry: nat, size: Pos): Walk
    requires entry < |sg|
  {
    var e := sg[entry];
    Walk(entry, e.page, e.offset, Min(e.length, size - e.offset % size), e.length)
  }

  lemma StartIs(sg: seq<Entry>, entry: nat, size: Pos)
    requires ListOk(sg, size) && entry < |sg|
    ensures WalkOk(Start(sg, entry, size), sg, size)
    ensures Rest(Start(sg, entry, size), sg, size) == Addresses(sg[entry..], size)
  {
    hide Run;
    var e := sg[entry];
    DivModUnique(e.offset, size, 0, e.offset);
    assert sg[entry..][1..] == sg[entry + 1..];
  }

  /** The first n addresses ahead, when they are on this page, are consecutive. */
  lemma Ahead(w: Walk, sg: seq<Entry>, size: Pos, n: nat)
    requires WalkOk(w, sg, size) && n <= w.lenPage
    ensures n <= |Rest(w, sg, size)| && Rest(w, sg, size)[..n] == Run(Place(w, size), n)
  {}

  function Advance(w: Walk, n: nat): Walk
    requires n <= w.lenPage && n <= w.lenSegment
  {
    w.(offset := w.offset + n, lenPage := w.lenPage - n, lenSegment := w.lenSegment - n)
  }

  lemma AdvanceIs(w: Walk, sg: seq<Entry>, size: Pos, n: nat)
    requires WalkOk(w, sg, size) && n <= w.lenPage
    ensures n <= w.lenSegment && WalkOk(Advance(w, n), sg, size) && n <= |Rest(w, sg, size)|
    ensures Rest(Advance(w, n), sg, size) == Rest(w, sg, size)[n..]
  {}

  /** scatterwalk_pagedone with more to come */
  function PageDone(w: Walk, sg: seq<Entry>, size: Pos): Walk
    requires w.lenPage <= w.lenSegment && (w.lenPage == w.lenSegment ==> w.entry + 1 < |sg|)
  {
    var left := w.lenSegment - w.lenPage;
    if left != 0 then w.(lenSegment := left, page := w.page + 1, lenPage := Min(left, size), offset := 0)
    else Start(sg, w.entry + 1, size)
  }

  /** Where bytes are still to come, there is an entry they come from. */
  lemma MoreToCome(w: Walk, sg: seq<Entry>, size: Pos)
    requires WalkOk(w, sg, size) && |Rest(w, sg, size)| > w.lenPage
    ensures w.lenPage <= w.lenSegment && (w.lenPage == w.lenSegment ==> w.entry + 1 < |sg|)
  {
    assert w.entry + 1 == |sg| ==> sg[w.entry + 1..] == [];
  }

  lemma PageDoneIs(w: Walk, sg: seq<Entry>, size: Pos)
    requires WalkOk(w, sg, size) && |Rest(w, sg, size)| > w.lenPage
    ensures w.lenPage <= w.lenSegment && (w.lenPage == w.lenSegment ==> w.entry + 1 < |sg|)
    ensures WalkOk(PageDone(w, sg, size), sg, size)
    ensures Rest(PageDone(w, sg, size), sg, size) == Rest(w, sg, size)[w.lenPage..]
    ensures PageDone(w, sg, size).entry > w.entry ||
      (PageDone(w, sg, size).entry == w.entry && w.lenPage + PageDone(w, sg, size).lenSegment == w.lenSegment && w.offset + w.lenPage == size)
  {
    MoreToCome(w, sg, size);
    var w' := PageDone(w, sg, size);
    if w.lenSegment == w.lenPage {
      StartIs(sg, w.entry + 1, size);
      assert Rest(w, sg, size)[w.lenPage..] == Addresses(sg[w.entry + 1..], size);
    } else {
      assert w.offset + w.lenPage == size;
      assert (w.page + 1) * size == w.page * size + size;
      assert Place(w', size) == Place(w, size) + w.lenPage;
    }
  }

  /** scatterwalk_done */
  function Done(w: Walk, sg: seq<Entry>, size: Pos, more: bool): Walk
    requires more && w.lenPage == 0 && w.lenSegment == 0 ==> w.entry + 1 < |sg|
  {
    if w.lenPage == 0 && more then PageDone(w, sg, size) else w
  }

  lemma DoneIs(w: Walk, sg: seq<Entry>, size: Pos, more: bool)
    requires WalkOk(w, sg, size) && (more ==> |Rest(w, sg, size)| > 0)
    ensures more && w.lenPage == 0 && w.lenSegment == 0 ==> w.entry + 1 < |sg|
    ensures WalkOk(Done(w, sg, size, more), sg, size)
    ensures Rest(Done(w, sg, size, more), sg, size) == Rest(w, sg, size)
  {
    if w.lenPage == 0 && more {
      PageDoneIs(w, sg, size);
    }
  }

  // ------------------------------------------------------------------
  // Memory
  // ------------------------------------------------------------------

  type Memory = seq<bv8>

  ghost predicate InMemory(addrs: seq<nat>, mem: Memory) {
    forall i :: 0 <= i < |addrs| ==> addrs[i] < |mem|
  }

  function Gather(mem: Memory, addrs: seq<nat>): (s: seq<bv8>)
    requires InMemory(addrs, mem)
    ensures |s| == |addrs|
  {
    seq(|addrs|, i requires 0 <= i < |addrs| => mem[addrs[i]])
  }

  ghost predicate Distinct(addrs: seq<nat>) {
    forall i, j :: 0 <= i < j < |addrs| ==> addrs[i] != addrs[j]
  }

  /** mem' is mem with the bytes stored at the addresses. */
  ghost predicate Stored(mem: Memory, mem': Memory, addrs: seq<nat>, bytes: seq<bv8>) {
    && |mem'| == |mem| && |bytes| == |addrs| && InMemory(addrs, mem)
    && (forall i :: 0 <= i < |addrs| ==> mem'[addrs[i]] == bytes[i])
    && (forall a :: 0 <= a < |mem| && a !in addrs ==> mem'[a] == mem[a])
  }

  lemma StoredNothing(mem: Memory)
    ensures Stored(mem, mem, [], [])
  {}

  lemma StoredMore(m0: Memory, m1: Memory, m2: Memory, a: seq<nat>, b: seq<nat>, x: seq<bv8>, y: seq<bv8>)
    requires Stored(m0, m1, a, x) && Stored(m1, m2, b, y) && Distinct(a + b)
    ensures Stored(m0, m2, a + b, x + y)
  {
    forall i | 0 <= i < |a + b| ensures (a + b)[i] < |m0| && m2[(a + b)[i]] == (x + y)[i] {
      if i < |a| {
        assert (a + b)[i] == a[i];
        forall j | 0 <= j < |b| ensures b[j] != a[i] {
          assert (a + b)[|a| + j] == b[j];
        }
      } else {
        assert (a + b)[i] == b[i - |a|];
      }
    }
    forall c | 0 <= c < |m0| && c !in a + b ensures m2[c] == m0[c] {
      assert c !in a && c !in b;
    }
  }

  /** Bytes at other addresses are what they were. */
  lemma GatherElsewhere(m0: Memory, m1: Memory, a: seq<nat>, x: seq<bv8>, b: seq<nat>)
    requires Stored(m0, m1, a, x) && InMemory(b, m0) && forall i :: 0 <= i < |b| ==> b[i] !in a
    ensures InMemory(b, m1) && Gather(m1, b) == Gather(m0, b)
  {}

  lemma StoredGather(m0: Memory, m1: Memory, a: seq<nat>, x: seq<bv8>)
    requires Stored(m0, m1, a, x)
    ensures InMemory(a, m1) && Gather(m1, a) == x
  {}

  lemma GatherRun(mem: Memory, base: nat, n: nat)
    requires base + n <= |mem|
    ensures InMemory(Run(base, n), mem) && Gather(mem, Run(base, n)) == mem[base..base + n]
  {}

  function Put(mem: Memory, base: nat, bytes: seq<bv8>): Memory
    requires base + |bytes| <= |mem|
  {
    mem[..base] + bytes + mem[base + |bytes|..]
  }

  lemma PutRun(mem: Memory, base: nat, bytes: seq<bv8>)
    requires base + |bytes| <= |mem|
    ensures Stored(mem, Put(mem, base, bytes), Run(base, |bytes|), bytes)
  {
    var m, r := Put(mem, base, bytes), Run(base, |bytes|);
    forall k | 0 <= k < |bytes| ensures base + k in r && m[base + k] == bytes[k] {
      assert r[k] == base + k;
    }
  }

  lemma RunInMemory(addrs: seq<nat>, base: nat, n: nat, mem: Memory)
    requires InMemory(addrs, mem) && n <= |addrs| && addrs[..n] == Run(base, n)
    ensures n > 0 ==> base + n <= |mem|
  {
    if n > 0 {
      assert addrs[n - 1] == addrs[..n][n - 1] == base + n - 1;
    }
  }
}
