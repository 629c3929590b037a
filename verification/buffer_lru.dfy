/** The per-CPU LRU of buffer heads in front of the page cache of a block device. */
module BufferLru {
  import opened Common

  type Id = nat

  const BH_LRU_SIZE: nat := 8

  datatype Bh = Bh(bdev: nat, block: nat, size: nat, count: int, dirty: bool, locked: bool)

  type Slots = seq<Option<Id>>

  // ------------------------------------------------------------------
  // One LRU
  // ------------------------------------------------------------------

  /** Entries are distinct, and the empty slots come last. */
  ghost predicate LruOk(l: Slots) {
    && |l| == BH_LRU_SIZE
    && (forall i, j :: 0 <= i < j < |l| && l[i].Some? ==> l[i] != l[j])
    && (forall i, j :: 0 <= i < j < |l| && l[i].None? ==> l[j].None?)
  }

  function Without(l: Slots, b: Id): Slots {
    if l == [] then [] else (if l[0] == Some(b) then [] else [l[0]]) + Without(l[1..], b)
  }

  function Nones(n: nat): (l: Slots)
    ensures |l| == n && forall x <- l :: x.None?
  {
    seq(n, _ => None)
  }

  /** The LRU after b has been installed, and the entry that fell out. */
  function Installed(l: Slots, b: Id): Slots {
    var w := Without(l, b);
    if |w| >= BH_LRU_SIZE then [Some(b)] + w[..BH_LRU_SIZE - 1] else [Some(b)] + w + Nones(BH_LRU_SIZE - 1 - |w|)
  }

  function Evicted(l: Slots, b: Id): Option<Id> {
    var w := Without(l, b);
    if |w| == BH_LRU_SIZE then w[BH_LRU_SIZE - 1] else None
  }

  lemma {:induction false} WithoutConcat(l: Slots, m: Slots, b: Id)
    ensures Without(l + m, b) == Without(l, b) + Without(m, b)
  {
    if l == [] {
      assert l + m == m;
    } else {
      assert (l + m)[1..] == l[1..] + m;
      WithoutConcat(l[1..], m, b);
    }
  }

  lemma {:induction false} WithoutNothing(l: Slots, b: Id)
    requires Some(b) !in l
    ensures Without(l, b) == l
  {
    if l != [] {
      assert Some(b) !in l[1..] by { assert forall x <- l[1..] :: x in l; }
      WithoutNothing(l[1..], b);
    }
  }

  lemma WithoutItself(b: Id)
    ensures Without([Some(b)], b) == []
  {
    assert [Some(b)][1..] == [];
  }

  /** At place i and nowhere else. */
  lemma WithoutAt(l: Slots, b: Id, i: nat)
    requires i < |l| && l[i] == Some(b) && forall j :: 0 <= j < |l| && j != i ==> l[j] != Some(b)
    ensures Without(l, b) == l[..i] + l[i + 1..]
  {
    hide Without;
    var x, y, z := l[..i], [l[i]], l[i + 1..];
    assert l == x + (y + z);
    WithoutItself(b);
    WithoutConcat(x, y + z, b);
    WithoutConcat(y, z, b);
    WithoutNothing(x, b);
    WithoutNothing(z, b);
  }

  function Front(l: Slots, i: nat): Slots
    requires i < |l|
  {
    [l[i]] + l[..i] + l[i + 1..]
  }

  lemma FrontOk(l: Slots, i: nat)
    requires LruOk(l) && i < |l| && l[i].Some?
    ensures LruOk(Front(l, i)) && forall x :: x in Front(l, i) <==> x in l
  {
    var f := Front(l, i);
    forall x ensures x in f <==> x in l {
      assert l == l[..i] + [l[i]] + l[i + 1..];
    }
  }

  /** An entry that is found comes to the front. */
  lemma InstalledAgain(l: Slots, b: Id, i: nat)
    requires LruOk(l) && i < |l| && l[i] == Some(b)
    ensures Installed(l, b) == Front(l, i) && Evicted(l, b) == None
  {
    WithoutAt(l, b, i);
    hide LruOk, Without;
    assert Nones(0) == [];
    assert [Some(b)] + (l[..i] + l[i + 1..]) + [] == [l[i]] + l[..i] + l[i + 1..];
  }

  /** A new entry pushes out the last. */
  lemma InstalledNew(l: Slots, b: Id)
    requires LruOk(l) && Some(b) !in l
    ensures Installed(l, b) == [Some(b)] + l[..BH_LRU_SIZE - 1] && Evicted(l, b) == l[BH_LRU_SIZE - 1]
  {
    WithoutNothing(l, b);
  }

  lemma PushOk(l: Slots, b: Id)
    requires LruOk(l) && Some(b) !in l
    ensures var q := [Some(b)] + l[..BH_LRU_SIZE - 1];
      LruOk(q) && forall x :: Some(x) in q <==> x == b || (Some(x) in l && l[BH_LRU_SIZE - 1] != Some(x))
  {
    assert l == l[..BH_LRU_SIZE - 1] + [l[BH_LRU_SIZE - 1]];
  }

  /** What is in the LRU after an installation: at most one entry has gone. */
  lemma InstalledOk(l: Slots, b: Id)
    requires LruOk(l)
    ensures LruOk(Installed(l, b))
    ensures forall x :: Some(x) in Installed(l, b) <==> x == b || (Some(x) in l && Evicted(l, b) != Some(x))
    ensures Evicted(l, b).Some? ==> Evicted(l, b) in l && Some(b) !in l
  {
    hide LruOk, Installed, Evicted, Front;
    SizeIs(l);
    if Some(b) in l {
      var i :| 0 <= i < |l| && l[i] == Some(b);
      InstalledAgain(l, b, i);
      FrontOk(l, i);
    } else {
      InstalledNew(l, b);
      PushOk(l, b);
    }
  }

  /** On how many of the first n CPUs b is cached. */
  function CachedBy(lru: map<nat, Slots>, n: nat, b: Id): nat {
    if n == 0 then 0
    else CachedBy(lru, n - 1, b) + (if n - 1 in lru && Some(b) in lru[n - 1] then 1 else 0)
  }

  lemma {:induction false} CachedUpdate(lru: map<nat, Slots>, n: nat, c: nat, l: Slots, b: Id)
    requires c in lru
    ensures CachedBy(lru[c := l], n, b) ==
      CachedBy(lru, n, b) + (if c < n then (if Some(b) in l then 1 else 0) - (if Some(b) in lru[c] then 1 else 0) else 0)
  {
    if n > 0 {
      CachedUpdate(lru, n - 1, c, l, b);
    }
  }

  lemma {:induction false} CachedPositive(lru: map<nat, Slots>, n: nat, c: nat, b: Id)
    requires c in lru && c < n && Some(b) in lru[c]
    ensures CachedBy(lru, n, b) > 0
  {
    if c < n - 1 {
      CachedPositive(lru, n - 1, c, b);
    }
  }

  function EmptyLrus(n: nat): (m: map<nat, Slots>)
    ensures forall c :: 0 <= c < n ==> c in m && m[c] == Nones(BH_LRU_SIZE)
  {
    if n == 0 then map[] else EmptyLrus(n - 1)[n - 1 := Nones(BH_LRU_SIZE)]
  }

  // ------------------------------------------------------------------
  // Counts and pages
  // ------------------------------------------------------------------

  /** Each cached entry holds one reference. */
  ghost predicate RefAt(bh: map<Id, Bh>, lru: map<nat, Slots>, cpus: nat, held: map<Id, int>, b: Id) {
    b in bh && b in held && held[b] >= 0 && bh[b].count == held[b] + CachedBy(lru, cpus, b)
  }

  ghost predicate RefsOk(bh: map<Id, Bh>, lru: map<nat, Slots>, cpus: nat, held: map<Id, int>) {
    forall b {:trigger RefAt(bh, lru, cpus, held, b)} :: b in bh ==> RefAt(bh, lru, cpus, held, b)
  }

  ghost predicate CpuOk(bh: map<Id, Bh>, lru: map<nat, Slots>, c: nat) {
    c in lru && LruOk(lru[c]) && forall x <- lru[c] :: x.Some? ==> x.value in bh
  }

  ghost predicate LrusOk(bh: map<Id, Bh>, lru: map<nat, Slots>, cpus: nat) {
    forall c {:trigger CpuOk(bh, lru, c)} :: 0 <= c < cpus ==> CpuOk(bh, lru, c)
  }

  type PageKey = (nat, nat)

  /** The page a buffer's block belongs to. */
  function KeyOf(perPage: nat -> Pos, bdev: nat, block: nat): PageKey {
    (bdev, block / perPage(bdev))
  }

  ghost predicate BhOk(bh: map<Id, Bh>, pages: map<PageKey, seq<Id>>, perPage: nat -> Pos, b: Id) {
    && b in bh && KeyOf(perPage, bh[b].bdev, bh[b].block) in pages
    && b in pages[KeyOf(perPage, bh[b].bdev, bh[b].block)]
  }

  ghost predicate PageOk(bh: map<Id, Bh>, pages: map<PageKey, seq<Id>>, perPage: nat -> Pos, k: PageKey) {
    && k in pages
    && (forall b <- pages[k] :: b in bh && KeyOf(perPage, bh[b].bdev, bh[b].block) == k)
    && (forall i, j {:trigger pages[k][i], pages[k][j]} ::
          0 <= i < j < |pages[k]| && pages[k][i] in bh && pages[k][j] in bh ==>
            bh[pages[k][i]].block != bh[pages[k][j]].block)
  }

  /** A buffer exists as long as it is attached to the page of its block; a page holds a block once. */
  ghost predicate PagesOk(bh: map<Id, Bh>, pages: map<PageKey, seq<Id>>, perPage: nat -> Pos) {
    && (forall b {:trigger BhOk(bh, pages, perPage, b)} :: b in bh ==> BhOk(bh, pages, perPage, b))
    && (forall k {:trigger PageOk(bh, pages, perPage, k)} :: k in pages ==> PageOk(bh, pages, perPage, k))
  }

  ghost predicate SamePlaces(a: map<Id, Bh>, b: map<Id, Bh>) {
    a.Keys == b.Keys && forall x <- a :: a[x].(count := b[x].count) == b[x]
  }

  lemma SamePages(a: map<Id, Bh>, b: map<Id, Bh>, pages: map<PageKey, seq<Id>>, perPage: nat -> Pos)
    requires PagesOk(a, pages, perPage) && SamePlaces(a, b)
    ensures PagesOk(b, pages, perPage)
  {
    forall x | x in b ensures BhOk(b, pages, perPage, x) {
      assert BhOk(a, pages, perPage, x);
    }
    forall k | k in pages ensures PageOk(b, pages, perPage, k) {
      assert PageOk(a, pages, perPage, k);
    }
  }

  /** No two buffers stand for the same block of a device. */
  lemma BlockIsUnique(bh: map<Id, Bh>, pages: map<PageKey, seq<Id>>, perPage: nat -> Pos, a: Id, b: Id)
    requires PagesOk(bh, pages, perPage) && a in bh && b in bh
    requires bh[a].bdev == bh[b].bdev && bh[a].block == bh[b].block
    ensures a == b
  {
    assert BhOk(bh, pages, perPage, a) && BhOk(bh, pages, perPage, b);
    var k := KeyOf(perPage, bh[a].bdev, bh[a].block);
    assert PageOk(bh, pages, perPage, k);
    var i :| 0 <= i < |pages[k]| && pages[k][i] == a;
    var j :| 0 <= j < |pages[k]| && pages[k][j] == b;
  }

  lemma SameKeys(a: map<Id, Bh>, b: map<Id, Bh>)
    requires SamePlaces(a, b)
    ensures a.Keys == b.Keys
  {}

  lemma SameTrans(a: map<Id, Bh>, b: map<Id, Bh>, c: map<Id, Bh>)
    requires SamePlaces(a, b) && SamePlaces(b, c)
    ensures SamePlaces(a, c)
  {}

  lemma CpuIs(bh: map<Id, Bh>, lru: map<nat, Slots>, cpus: nat, c: nat)
    requires LrusOk(bh, lru, cpus) && c < cpus
    ensures CpuOk(bh, lru, c)
  {}

  lemma RecountSame(bh: map<Id, Bh>, l: Slots)
    ensures Recount(bh, l, l) == bh
  {}

  lemma RefIs(bh: map<Id, Bh>, lru: map<nat, Slots>, cpus: nat, held: map<Id, int>, b: Id)
    requires RefsOk(bh, lru, cpus, held) && b in bh
    ensures b in held && held[b] >= 0 && bh[b].count == held[b] + CachedBy(lru, cpus, b)
  {
    assert RefAt(bh, lru, cpus, held, b);
  }

  lemma LrusKeep(bh: map<Id, Bh>, bh': map<Id, Bh>, lru: map<nat, Slots>, cpus: nat, c: nat, l: Slots)
    requires LrusOk(bh, lru, cpus) && c in lru && bh.Keys == bh'.Keys
    requires LruOk(l) && forall x <- l :: x.Some? ==> x.value in bh
    ensures LrusOk(bh', lru[c := l], cpus)
  {
    var m := lru[c := l];
    forall k | 0 <= k < cpus ensures CpuOk(bh', m, k) {
      assert CpuOk(bh, lru, k);
    }
  }

  lemma AddKeeps(bh: map<Id, Bh>, lru: map<nat, Slots>, cpus: nat, held: map<Id, int>, b: Id, delta: int)
    requires RefsOk(bh, lru, cpus, held) && LrusOk(bh, lru, cpus) && b in bh && b in held && held[b] + delta >= 0
    ensures var bh' := bh[b := bh[b].(count := bh[b].count + delta)];
      RefsOk(bh', lru, cpus, held[b := held[b] + delta]) && LrusOk(bh', lru, cpus) && SamePlaces(bh, bh')
  {
    var bh', held' := bh[b := bh[b].(count := bh[b].count + delta)], held[b := held[b] + delta];
    forall x | x in bh' ensures RefAt(bh', lru, cpus, held', x) {
      assert RefAt(bh, lru, cpus, held, x);
    }
    forall k | 0 <= k < cpus ensures CpuOk(bh', lru, k) {
      assert CpuOk(bh, lru, k);
    }
  }

  function One(b: bool): int { if b then 1 else 0 }

  /** The counts after l has been exchanged for l' on one CPU. */
  ghost function Recount(bh: map<Id, Bh>, l: Slots, l': Slots): map<Id, Bh> {
    map x | x in bh :: bh[x].(count := bh[x].count + One(Some(x) in l') - One(Some(x) in l))
  }

  lemma RecountKeeps(bh: map<Id, Bh>, lru: map<nat, Slots>, cpus: nat, held: map<Id, int>, c: nat, l': Slots)
    requires RefsOk(bh, lru, cpus, held) && c in lru && c < cpus
    ensures RefsOk(Recount(bh, lru[c], l'), lru[c := l'], cpus, held) && SamePlaces(bh, Recount(bh, lru[c], l'))
  {
    var bh', m := Recount(bh, lru[c], l'), lru[c := l'];
    forall x | x in bh' ensures RefAt(bh', m, cpus, held, x) {
      assert RefAt(bh, lru, cpus, held, x);
      CachedUpdate(lru, cpus, c, l', x);
    }
  }

  /** The loop of bh_lru_install over a local copy of the LRU. */
  method Rearrange(l: Slots, b: Id) returns (bhs: Slots, found: bool, evictee: Option<Id>)
    requires |l| == BH_LRU_SIZE
    ensures bhs == Installed(l, b) && found == (Some(b) in l) && evictee == Evicted(l, b)
  {
    bhs, found, evictee := [Some(b)], false, None;
    var i: nat := 0;
    ghost var w: Slots := [];
    while i < BH_LRU_SIZE
      invariant i <= BH_LRU_SIZE && w == Without(l[..i], b) && |w| <= i
      invariant found <==> Some(b) in l[..i]
      invariant bhs == [Some(b)] + (if |w| < BH_LRU_SIZE then w else w[..BH_LRU_SIZE - 1])
      invariant evictee == if |w| == BH_LRU_SIZE then w[BH_LRU_SIZE - 1] else None
    {
      assert l[..i + 1] == l[..i] + [l[i]];
      WithoutConcat(l[..i], [l[i]], b);
      assert Without([l[i]], b) == (if l[i] == Some(b) then [] else [l[i]]) + Without([], b);
      if l[i] == Some(b) {
        found := true;
      } else if |bhs| >= BH_LRU_SIZE {
        evictee := l[i];
      } else {
        bhs := bhs + [l[i]];
      }
      i := i + 1;
      w := Without(l[..i], b);
    }
    assert l[..i] == l;
    ghost var q := bhs;
    while |bhs| < BH_LRU_SIZE
      invariant |q| <= |bhs| <= BH_LRU_SIZE && bhs == q + Nones(|bhs| - |q|)
    {
      bhs := bhs + [None];
    }
  }

  lemma SizeIs(l: Slots)
    requires LruOk(l)
    ensures |l| == BH_LRU_SIZE
  {}

  lemma InstalledFirst(l: Slots, b: Id)
    requires LruOk(l) && l[0] == Some(b)
    ensures Installed(l, b) == l
  {
    WithoutAt(l, b, 0);
    assert l == [l[0]] + ([] + l[1..]);
  }

  /** The counts as bh_lru_install changes them. */
  function InstallCounts(bh: map<Id, Bh>, l: Slots, b: Id): map<Id, Bh>
    requires b in bh
  {
    var bh1 := bh[b := bh[b].(count := bh[b].count + 1)];
    var bh2 := if Some(b) in l then bh1[b := bh1[b].(count := bh1[b].count - 1)] else bh1;
    match Evicted(l, b)
    case Some(x) => if x in bh2 then bh2[x := bh2[x].(count := bh2[x].count - 1)] else bh2
    case None => bh2
  }

  lemma InstallRecounts(bh: map<Id, Bh>, l: Slots, b: Id)
    requires LruOk(l) && b in bh && forall x <- l :: x.Some? ==> x.value in bh
    ensures InstallCounts(bh, l, b) == Recount(bh, l, Installed(l, b))
  {
    hide LruOk, Installed, Evicted;
    InstalledOk(l, b);
    assert InstallCounts(bh, l, b) == Recount(bh, l, Installed(l, b));
  }

  /** Buffers of a page that nobody uses, and which are neither dirty nor locked. */
  predicate Busy(x: Bh) {
    x.count != 0 || x.dirty || x.locked
  }

  lemma DropKeeps(bh: map<Id, Bh>, lru: map<nat, Slots>, cpus: nat, held: map<Id, int>, gone: set<Id>)
    requires RefsOk(bh, lru, cpus, held) && LrusOk(bh, lru, cpus)
    requires forall b <- gone :: b in bh && bh[b].count == 0
    ensures RefsOk(bh - gone, lru, cpus, held) && LrusOk(bh - gone, lru, cpus)
    ensures forall c, b :: 0 <= c < cpus && b in gone && c in lru ==> Some(b) !in lru[c]
  {
    forall c, b | 0 <= c < cpus && b in gone && c in lru ensures Some(b) !in lru[c] {
      assert RefAt(bh, lru, cpus, held, b);
      if Some(b) in lru[c] {
        CachedPositive(lru, cpus, c, b);
      }
    }
    forall b | b in bh - gone ensures RefAt(bh - gone, lru, cpus, held, b) {
      assert RefAt(bh, lru, cpus, held, b);
    }
    forall c | 0 <= c < cpus ensures CpuOk(bh - gone, lru, c) {
      assert CpuOk(bh, lru, c);
      forall x <- lru[c] ensures x.Some? ==> x.value in bh - gone {
        assert x.Some? ==> x == Some(x.value);
      }
    }
  }

  lemma DropPages(bh: map<Id, Bh>, pages: map<PageKey, seq<Id>>, perPage: nat -> Pos, k: PageKey, gone: set<Id>)
    requires PagesOk(bh, pages, perPage) && k in pages && (forall b :: b in gone <==> b in pages[k])
    ensures PagesOk(bh - gone, pages - {k}, perPage)
  {
    assert PageOk(bh, pages, perPage, k);
    forall b | b in bh - gone ensures BhOk(bh - gone, pages - {k}, perPage, b) {
      assert BhOk(bh, pages, perPage, b);
    }
    forall j | j in pages - {k} ensures PageOk(bh - gone, pages - {k}, perPage, j) {
      assert PageOk(bh, pages, perPage, j);
    }
  }

  /** The buffers grow_dev_page attaches to a new page: its blocks in order, unused and clean. */
  function NewBuffers(ids: seq<Id>, bdev: nat, first: nat, size: nat): map<Id, Bh>
  {
    if ids == [] then map[]
    else NewBuffers(ids[1..], bdev, first + 1, size)[ids[0] := Bh(bdev, first, size, 0, false, false)]
  }

  lemma {:induction false} NewBuffersAre(ids: seq<Id>, bdev: nat, first: nat, size: nat)
    requires forall i, j :: 0 <= i < j < |ids| ==> ids[i] != ids[j]
    ensures forall b :: b in NewBuffers(ids, bdev, first, size) <==> b in ids
    ensures forall i :: 0 <= i < |ids| ==>
      NewBuffers(ids, bdev, first, size)[ids[i]] == Bh(bdev, first + i, size, 0, false, false)
  {
    if ids != [] {
      NewBuffersAre(ids[1..], bdev, first + 1, size);
      var m := NewBuffers(ids, bdev, first, size);
      forall i | 0 <= i < |ids| ensures m[ids[i]] == Bh(bdev, first + i, size, 0, false, false) {
        if i > 0 {
          assert ids[i] == ids[1..][i - 1];
        }
      }
      assert ids == [ids[0]] + ids[1..];
    }
  }

  lemma {:induction false} NotCached(bh: map<Id, Bh>, lru: map<nat, Slots>, cpus: nat, n: nat, b: Id)
    requires LrusOk(bh, lru, cpus) && b !in bh && n <= cpus
    ensures CachedBy(lru, n, b) == 0
  {
    if n > 0 {
      NotCached(bh, lru, cpus, n - 1, b);
      assert CpuOk(bh, lru, n - 1);
    }
  }

  lemma GrowKeeps(bh: map<Id, Bh>, lru: map<nat, Slots>, cpus: nat, held: map<Id, int>, more: map<Id, Bh>)
    requires RefsOk(bh, lru, cpus, held) && LrusOk(bh, lru, cpus) && bh.Keys !! more.Keys
    requires forall b <- more :: more[b].count == 0
    ensures RefsOk(bh + more, lru, cpus, held + (map b | b in more :: 0)) && LrusOk(bh + more, lru, cpus)
  {
    var all, held' := bh + more, held + (map b | b in more :: 0);
    forall b | b in all ensures RefAt(all, lru, cpus, held', b) {
      if b in more {
        NotCached(bh, lru, cpus, cpus, b);
      } else {
        assert RefAt(bh, lru, cpus, held, b);
      }
    }
    forall c | 0 <= c < cpus ensures CpuOk(all, lru, c) {
      assert CpuOk(bh, lru, c);
    }
  }

  lemma KeyOfBlock(perPage: nat -> Pos, bdev: nat, index: nat, i: nat)
    requires i < perPage(bdev)
    ensures KeyOf(perPage, bdev, index * perPage(bdev) + i) == (bdev, index)
  {
    DivModUnique(index * perPage(bdev) + i, perPage(bdev), index, i);
  }

  /** The new buffers are those of the page's blocks, in order. */
  ghost predicate PageOfBlocks(more: map<Id, Bh>, ids: seq<Id>, perPage: nat -> Pos, k: PageKey, first: nat) {
    && (forall b :: b in more <==> b in ids)
    && (forall i :: 0 <= i < |ids| ==> more[ids[i]].block == first + i)
    && (forall b <- more :: KeyOf(perPage, more[b].bdev, more[b].block) == k)
  }

  lemma NewPage(ids: seq<Id>, perPage: nat -> Pos, bdev: nat, index: nat, size: nat)
    requires |ids| == perPage(bdev) && forall i, j :: 0 <= i < j < |ids| ==> ids[i] != ids[j]
    ensures var more := NewBuffers(ids, bdev, index * perPage(bdev), size);
      && PageOfBlocks(more, ids, perPage, (bdev, index), index * perPage(bdev))
      && forall b <- more :: more[b].count == 0
  {
    hide KeyOf, NewBuffers;
    var first := index * perPage(bdev);
    var more := NewBuffers(ids, bdev, first, size);
    NewBuffersAre(ids, bdev, first, size);
    forall b <- more ensures KeyOf(perPage, more[b].bdev, more[b].block) == (bdev, index) && more[b].count == 0 {
      var i :| 0 <= i < |ids| && ids[i] == b;
      KeyOfBlock(perPage, bdev, index, i);
    }
  }

  lemma GrowPages(bh: map<Id, Bh>, more: map<Id, Bh>, pages: map<PageKey, seq<Id>>, perPage: nat -> Pos, k: PageKey,
                  ids: seq<Id>, first: nat)
    requires PagesOk(bh, pages, perPage) && k !in pages && PageOfBlocks(more, ids, perPage, k, first)
    requires bh.Keys !! more.Keys
    ensures PagesOk(bh + more, pages[k := ids], perPage)
  {
    hide KeyOf;
    var all, pages' := bh + more, pages[k := ids];
    forall b | b in all ensures BhOk(all, pages', perPage, b) {
      assert b in bh ==> BhOk(bh, pages, perPage, b);
    }
    forall j | j in pages' ensures PageOk(all, pages', perPage, j) {
      if j != k {
        assert PageOk(bh, pages, perPage, j);
        assert forall b <- pages[j] :: b in bh && b !in more;
      }
    }
  }

  /** The test in lookup_bh_lru. */
  predicate Matches(bh: map<Id, Bh>, e: Option<Id>, bdev: nat, block: nat, size: nat) {
    e.Some? && e.value in bh && bh[e.value].bdev == bdev && bh[e.value].block == block && bh[e.value].size == size
  }

  class BufferCache {
    const cpus: nat
    /** blocks of the device's size on a page */
    const perPage: nat -> Pos

    var bh: map<Id, Bh>
    var lru: map<nat, Slots>
    var pages: map<PageKey, seq<Id>>
    ghost var held: map<Id, int>

    ghost predicate Valid()
      reads this
    {
      RefsOk(bh, lru, cpus, held) && LrusOk(bh, lru, cpus) && PagesOk(bh, pages, perPage)
    }

    constructor (n: nat, blocks: nat -> Pos)
      ensures Valid() && bh == map[] && cpus == n && perPage == blocks
    {
      cpus, perPage := n, blocks;
      bh, pages, held := map[], map[], map[];
      lru := EmptyLrus(n);
    }

    /** get_bh, or __brelse, on behalf of the caller. */
    method Add(b: Id, delta: int)
      requires Valid() && b in bh && b in held && held[b] + delta >= 0
      modifies this`bh, this`held
      ensures Valid() && SamePlaces(old(bh), bh)
      ensures held == old(held)[b := old(held)[b] + delta]
    {
      ghost var bh0, held0 := bh, held;
      bh := bh[b := bh[b].(count := bh[b].count + delta)];
      held := held[b := held[b] + delta];
      AddKeeps(bh0, lru, cpus, held0, b, delta);
      SamePages(bh0, bh, pages, perPage);
    }

    /** bh_lru_install on CPU c: takes one reference, gives back at most one. */
    method Install(c: nat, b: Id)
      requires Valid() && c < cpus && b in bh
      modifies this`bh, this`lru
      ensures Valid() && SamePlaces(old(bh), bh)
      ensures c in old(lru) && lru == old(lru)[c := Installed(old(lru)[c], b)]
    {
      hide PagesOk, RefsOk, SamePlaces, Installed, Evicted, LruOk, LrusOk, Recount;
      CpuIs(bh, lru, cpus, c);
      assert CpuOk(bh, lru, c);
      var l := lru[c];
      ghost var bh0, lru0 := bh, lru;
      SizeIs(l);
      InstalledOk(l, b);
      RecountKeeps(bh, lru, cpus, held, c, Installed(l, b));
      LrusKeep(bh, Recount(bh, l, Installed(l, b)), lru, cpus, c, Installed(l, b));
      InstallRecounts(bh, l, b);
      if l[0] != Some(b) {
        var bhs, found, evictee := Rearrange(l, b);
        bh := bh[b := bh[b].(count := bh[b].count + 1)];
        if found {
          bh := bh[b := bh[b].(count := bh[b].count - 1)];
        }
        lru := lru[c := bhs];
        if evictee.Some? {
          bh := bh[evictee.value := bh[evictee.value].(count := bh[evictee.value].count - 1)];
        }
        assert bh == InstallCounts(bh0, l, b);
      } else {
        InstalledFirst(l, b);
        assert lru == lru[c := l];
        RecountSame(bh, l);
      }
      SamePages(bh0, bh, pages, perPage);
    }

    /** The shift in lookup_bh_lru. */
    static method ToFront(l: Slots, i: nat) returns (r: Slots)
      requires i < |l|
      ensures r == Front(l, i)
    {
      r := l;
      var k: nat := i;
      while k > 0
        invariant 0 <= k <= i && |r| == |l| && r[..k + 1] == l[..k + 1]
        invariant r[k + 1..i + 1] == l[k..i] && r[i + 1..] == l[i + 1..]
      {
        r := r[k := r[k - 1]];
        k := k - 1;
      }
      assert r == r[..1] + r[1..i + 1] + r[i + 1..];
      r := r[0 := l[i]];
    }

    /** An entry that is found goes to the front, and the caller gets a reference to it. */
    method Hit(c: nat, i: nat)
      requires Valid() && c < cpus && c in lru && i < |lru[c]| && lru[c][i].Some? && lru[c][i].value in bh
      modifies this`bh, this`lru, this`held
      ensures Valid() && SamePlaces(old(bh), bh)
      ensures var b := old(lru)[c][i].value;
        && lru == old(lru)[c := Installed(old(lru)[c], b)]
        && b in old(held) && held == old(held)[b := old(held)[b] + 1]
    {
      hide PagesOk, RefsOk, SamePlaces, LruOk, Installed;
      assert CpuOk(bh, lru, c);
      var l := lru[c];
      var e := l[i];
      FrontOk(l, i);
      InstalledAgain(l, e.value, i);
      RecountKeeps(bh, lru, cpus, held, c, Front(l, i));
      LrusKeep(bh, bh, lru, cpus, c, Front(l, i));
      assert Recount(bh, l, Front(l, i)) == bh;
      assert i == 0 ==> Front(l, i) == l && lru[c := l] == lru;
      if i > 0 {
        var moved := ToFront(l, i);
        lru := lru[c := moved];
      }
      RefIs(bh, lru, cpus, held, e.value);
      Add(e.value, 1);
    }

    /** lookup_bh_lru on CPU c. */
    method LookupLru(c: nat, bdev: nat, block: nat, size: nat) returns (r: Option<Id>)
      requires Valid() && c < cpus
      modifies this`bh, this`lru, this`held
      ensures Valid() && SamePlaces(old(bh), bh)
      ensures c in old(lru) && (r.Some? <==> exists e :: e in old(lru)[c] && Matches(old(bh), e, bdev, block, size))
      ensures r.Some? ==> Matches(old(bh), r, bdev, block, size) && r in old(lru)[c] && r.value in old(held)
      ensures lru == if r.None? then old(lru) else old(lru)[c := Installed(old(lru)[c], r.value)]
      ensures held == if r.None? then old(held) else old(held)[r.value := old(held)[r.value] + 1]
    {
      hide PagesOk, RefsOk, SamePlaces, LruOk, Installed;
      assert CpuOk(bh, lru, c);
      var l := lru[c];
      SizeIs(l);
      Same(bh);
      var i: nat := 0;
      r := None;
      while i < BH_LRU_SIZE
        invariant i <= BH_LRU_SIZE && forall j :: 0 <= j < i ==> !Matches(bh, l[j], bdev, block, size)
      {
        var e := l[i];
        if Matches(bh, e, bdev, block, size) {
          Hit(c, i);
          return e;
        }
        i := i + 1;
      }
    }

    /** __find_get_block_slow */
    method FindSlow(bdev: nat, block: nat) returns (r: Option<Id>)
      requires Valid()
      modifies this`bh, this`held
      ensures Valid() && SamePlaces(old(bh), bh)
      ensures r.Some? <==> exists b :: b in old(bh) && old(bh)[b].bdev == bdev && old(bh)[b].block == block
      ensures r.Some? ==>
        && r.value in old(bh) && r.value in old(held)
        && old(bh)[r.value].bdev == bdev && old(bh)[r.value].block == block
      ensures held == if r.None? then old(held) else old(held)[r.value := old(held)[r.value] + 1]
    {
      hide RefsOk, LrusOk;
      var k := KeyOf(perPage, bdev, block);
      r := None;
      if k !in pages {
        forall b | b in bh ensures bh[b].bdev != bdev || bh[b].block != block {
          assert BhOk(bh, pages, perPage, b);
        }
        return;
      }
      var ring := pages[k];
      assert PageOk(bh, pages, perPage, k);
      var i: nat := 0;
      while i < |ring|
        invariant i <= |ring|
        invariant forall j :: 0 <= j < i ==> bh[ring[j]].block != block
      {
        if bh[ring[i]].block == block {
          RefIs(bh, lru, cpus, held, ring[i]);
          Add(ring[i], 1);
          return Some(ring[i]);
        }
        i := i + 1;
      }
      forall b | b in bh ensures bh[b].bdev != bdev || bh[b].block != block {
        assert BhOk(bh, pages, perPage, b);
      }
    }

    /**
      __find_get_block: whatever is in the LRUs, the buffer of the block if
      there is one, with one more reference for the caller.
    */
    method FindGetBlock(c: nat, bdev: nat, block: nat, size: nat) returns (r: Option<Id>)
      requires Valid() && c < cpus
      modifies this`bh, this`lru, this`held
      ensures Valid() && SamePlaces(old(bh), bh)
      ensures r.Some? <==> exists b :: b in old(bh) && old(bh)[b].bdev == bdev && old(bh)[b].block == block
      ensures r.Some? ==>
        && r.value in old(bh) && r.value in old(held)
        && old(bh)[r.value].bdev == bdev && old(bh)[r.value].block == block
      ensures c in old(lru) && lru == if r.None? then old(lru) else old(lru)[c := Installed(old(lru)[c], r.value)]
      ensures held == if r.None? then old(held) else old(held)[r.value := old(held)[r.value] + 1]
    {
      hide PagesOk, RefsOk, LrusOk, Installed;
      r := LookupLru(c, bdev, block, size);
      if r.None? {
        r := FindSlow(bdev, block);
        if r.Some? {
          Install(c, r.value);
        }
      }
    }

    /** One turn of invalidate_bh_lru. */
    method ClearSlot(c: nat, i: nat, ghost l: Slots)
      requires RefsOk(bh, lru, cpus, held) && c < cpus && c in lru && LruOk(l) && i < |l|
      requires lru[c] == Nones(i) + l[i..] && forall x <- l :: x.Some? ==> x.value in bh
      modifies this`bh, this`lru
      ensures RefsOk(bh, lru, cpus, held) && SamePlaces(old(bh), bh)
      ensures lru == old(lru)[c := Nones(i + 1) + l[i + 1..]]
    {
      hide RefsOk, SamePlaces, LruOk, Recount;
      ghost var l2 := Nones(i + 1) + l[i + 1..];
      var e := lru[c][i];
      assert e == l[i] && lru[c][i := None] == l2;
      RecountKeeps(bh, lru, cpus, held, c, l2);
      ClearRecounts(bh, l, i);
      if e.Some? {
        bh := bh[e.value := bh[e.value].(count := bh[e.value].count - 1)];
      }
      lru := lru[c := lru[c][i := None]];
    }

    /** invalidate_bh_lru on CPU c. */
    method Invalidate(c: nat)
      requires Valid() && c < cpus
      modifies this`bh, this`lru
      ensures Valid() && SamePlaces(old(bh), bh)
      ensures c in old(lru) && lru == old(lru)[c := Nones(BH_LRU_SIZE)]
    {
      hide PagesOk, RefsOk, SamePlaces, LruOk, LrusOk;
      CpuIs(bh, lru, cpus, c);
      ghost var bh0, lru0, l := bh, lru, lru[c];
      SizeIs(l);
      Same(bh);
      assert Nones(0) + l[0..] == l;
      assert lru == lru0[c := l];
      var i: nat := 0;
      while i < BH_LRU_SIZE
        invariant i <= BH_LRU_SIZE && lru == lru0[c := Nones(i) + l[i..]]
        invariant RefsOk(bh, lru, cpus, held) && SamePlaces(bh0, bh)
      {
        ghost var bh1 := bh;
        SameKeys(bh0, bh);
        ClearSlot(c, i, l);
        SameTrans(bh0, bh1, bh);
        i := i + 1;
      }
      assert Nones(BH_LRU_SIZE) + l[BH_LRU_SIZE..] == Nones(BH_LRU_SIZE);
      EmptyOk(Nones(BH_LRU_SIZE));
      SameKeys(bh0, bh);
      LrusKeep(bh0, bh, lru0, cpus, c, Nones(BH_LRU_SIZE));
      SamePages(bh0, bh, pages, perPage);
    }

    /** drop_buffers: a page's buffers are freed if none of them is busy; then no LRU holds any of them. */
    method DropBuffers(k: PageKey) returns (ok: bool)
      requires Valid() && k in pages
      modifies this`bh, this`pages
      ensures Valid()
      ensures ok <==> forall b <- old(pages)[k] :: b in old(bh) && !Busy(old(bh)[b])
      ensures !ok ==> bh == old(bh) && pages == old(pages)
      ensures ok ==>
        && pages == old(pages) - {k} && bh == old(bh) - (set b | b in old(pages)[k])
        && forall c, b :: 0 <= c < cpus && b in old(pages)[k] && c in lru ==> Some(b) !in lru[c]
    {
      hide RefsOk, LrusOk;
      assert PageOk(bh, pages, perPage, k);
      var ring, i: nat := pages[k], 0;
      while i < |ring|
        invariant i <= |ring|
        invariant forall j :: 0 <= j < i ==> !Busy(bh[ring[j]])
      {
        if Busy(bh[ring[i]]) {
          assert ring[i] in ring;
          return false;
        }
        i := i + 1;
      }
      var gone := set b | b in ring;
      DropKeeps(bh, lru, cpus, held, gone);
      DropPages(bh, pages, perPage, k, gone);
      bh := bh - gone;
      pages := pages - {k};
      return true;
    }

    /** A new page of buffers, as grow_dev_page attaches it. */
    method Grow(bdev: nat, index: nat, ids: seq<Id>, size: nat)
      requires Valid() && (bdev, index) !in pages && |ids| == perPage(bdev)
      requires (forall b <- ids :: b !in bh) && forall i, j :: 0 <= i < j < |ids| ==> ids[i] != ids[j]
      modifies this`bh, this`pages, this`held
      ensures Valid() && pages == old(pages)[(bdev, index) := ids]
      ensures bh == old(bh) + NewBuffers(ids, bdev, index * perPage(bdev), size)
    {
      hide RefsOk, LrusOk, PagesOk, NewBuffers, KeyOf;
      ghost var more := NewBuffers(ids, bdev, index * perPage(bdev), size);
      NewPage(ids, perPage, bdev, index, size);
      GrowPages(bh, more, pages, perPage, (bdev, index), ids, index * perPage(bdev));
      GrowKeeps(bh, lru, cpus, held, more);
      bh := bh + NewBuffers(ids, bdev, index * perPage(bdev), size);
      pages := pages[(bdev, index) := ids];
      held := held + (map b | b in more :: 0);
    }
  }

  lemma Same(bh: map<Id, Bh>)
    ensures SamePlaces(bh, bh)
  {}

  lemma SlotGone(l: Slots, i: nat)
    requires LruOk(l) && i < |l|
    ensures forall x :: Some(x) in Nones(i) + l[i..] <==> Some(x) in Nones(i + 1) + l[i + 1..] || l[i] == Some(x)
    ensures l[i].Some? ==> l[i] !in Nones(i + 1) + l[i + 1..]
  {
    assert l[i..] == [l[i]] + l[i + 1..];
  }

  lemma ClearRecounts(bh: map<Id, Bh>, l: Slots, i: nat)
    requires LruOk(l) && i < |l| && forall x <- l :: x.Some? ==> x.value in bh
    ensures Recount(bh, Nones(i) + l[i..], Nones(i + 1) + l[i + 1..]) ==
      if l[i].Some? then bh[l[i].value := bh[l[i].value].(count := bh[l[i].value].count - 1)] else bh
  {
    hide LruOk, Nones;
    SlotGone(l, i);
    assert l[i] in l;
  }

  lemma EmptyOk(l: Slots)
    requires l == Nones(BH_LRU_SIZE)
    ensures LruOk(l) && forall x <- l :: x.None?
  {}
}
