/** Adding dentries to the cache: d_alloc, and hashing by name. */
module DcacheGrow {
  import opened Common
  import opened DcacheTree
  import opened DcacheInv

  /** A dentry as d_alloc leaves it: used once, unhashed, negative. */
  function NewDentry(parent: Id, name: string, hash: nat, sb: nat): Dentry {
    Dentry(1, parent, [], false, false, None, hash, name, sb, None, false, false)
  }

  /** The root that d_alloc_anon makes. */
  function Anonymous(y: Id, sb: nat, inode: nat): Dentry {
    NewDentry(y, "", 0, sb).(inode := Some(inode), disconnected := true, hashed := true)
  }

  /** The new dentry y joins the cache, as a root or as the first child of its parent. */
  function AddLeaf(d: map<Id, Dentry>, y: Id, e: Dentry): map<Id, Dentry>
    requires e.parent == y || e.parent in d
  {
    if e.parent == y then d[y := e]
    else d[y := e][e.parent := d[e.parent].(count := d[e.parent].count + 1, subdirs := [y] + d[e.parent].subdirs)]
  }

  ghost function LeafRank(rank: map<Id, nat>, y: Id, parent: Id): map<Id, nat> {
    rank[y := if parent != y && parent in rank then rank[parent] + 1 else 0]
  }

  lemma AddLeafTree(d: map<Id, Dentry>, rank: map<Id, nat>, y: Id, e: Dentry)
    requires TreeOk(d, rank) && y !in d && (e.parent == y || e.parent in d) && e.subdirs == []
    ensures TreeOk(AddLeaf(d, y, e), LeafRank(rank, y, e.parent))
  {
    var f, r, p := AddLeaf(d, y, e), LeafRank(rank, y, e.parent), e.parent;
    if p != y {
      assert NodeOk(d, rank, p);
      NoDupConcat([y], d[p].subdirs);
    }
    forall x | x in f ensures NodeOk(f, r, x) {
      if x != y {
        assert NodeOk(d, rank, x);
        assert forall z <- d[x].subdirs :: z in d && z != y;
      }
    }
  }

  /** The child's reference to its parent is new, and so is the caller's to the child. */
  lemma AddLeafCount(d: map<Id, Dentry>, held: map<Id, int>, y: Id, e: Dentry)
    requires CountOk(d, held) && y !in d && (e.parent == y || e.parent in d) && e.subdirs == [] && e.count >= 0
    ensures CountOk(AddLeaf(d, y, e), held[y := e.count])
  {
    var f, h := AddLeaf(d, y, e), held[y := e.count];
    forall x | x in f ensures CountAt(f, h, x) {
      if x != y {
        assert CountAt(d, held, x);
      }
    }
  }

  lemma AddLeafTable(d: map<Id, Dentry>, table: map<Chain, seq<Id>>, hashOf: (Id, nat) -> nat, y: Id, e: Dentry)
    requires TableOk(d, table) && BucketsOk(d, hashOf) && y !in d && (e.parent == y || e.parent in d) && !e.hashed
    ensures TableOk(AddLeaf(d, y, e), table) && BucketsOk(AddLeaf(d, y, e), hashOf)
  {
    var f := AddLeaf(d, y, e);
    forall x | x in f ensures HashAt(f, table, x) && BucketAt(f, hashOf, x) {
      if x != y {
        assert HashAt(d, table, x) && BucketAt(d, hashOf, x);
      }
    }
    forall b ensures ChainOk(f, table, b) {
      assert ChainOk(d, table, b);
    }
  }

  lemma AddLeafList(d: map<Id, Dentry>, held: map<Id, int>, unused: seq<Id>, nr: int, y: Id, e: Dentry)
    requires CountOk(d, held)
    requires ListOk(d, unused, nr) && ZerosListed(d, unused, {}) && y !in d && (e.parent == y || e.parent in d)
    requires e.count != 0
    ensures ListOk(AddLeaf(d, y, e), unused, nr) && ZerosListed(AddLeaf(d, y, e), unused, {})
    ensures |AddLeaf(d, y, e)| == |d| + 1
  {
    hide CountOk;
    var f := AddLeaf(d, y, e);
    KeysPlusOne(d, f, y);
    if e.parent != y {
      AddedParent(d, held, e.parent);
    }
  }

  lemma KeysPlusOne(d: map<Id, Dentry>, f: map<Id, Dentry>, y: Id)
    requires y !in d && f.Keys == d.Keys + {y}
    ensures |f| == |d| + 1
  {
    assert |f.Keys| == |d.Keys| + 1;
  }

  lemma AddedParent(d: map<Id, Dentry>, held: map<Id, int>, p: Id)
    requires CountOk(d, held) && p in d
    ensures d[p].count + 1 != 0
  {
    assert CountAt(d, held, p);
  }

  /** x hashed under the chain of its parent and name hash. */
  function Rehashed(e: Dentry, hashOf: (Id, nat) -> nat): Dentry {
    e.(hashed := true, bucket := Some(hashOf(e.parent, e.hash)))
  }

  lemma RehashBuckets(d: map<Id, Dentry>, hashOf: (Id, nat) -> nat, x: Id, e: Dentry)
    requires BucketsOk(d, hashOf) && x in d && BucketAt(d[x := e], hashOf, x)
    ensures BucketsOk(d[x := e], hashOf)
  {
    var f := d[x := e];
    forall y | y in f && y != x ensures BucketAt(f, hashOf, y) {
      assert BucketAt(d, hashOf, y);
    }
  }

  /**
    A hashed child with that name; `same` is the parent's d_compare, or
    equality.  An anonymous root is not a child of itself.
  */
  predicate Named(d: map<Id, Dentry>, same: (string, string) -> bool, parent: Id, hash: nat, name: string, y: Id) {
    && y in d && d[y].hashed && (y != parent || d[y].bucket.Some?)
    && d[y].parent == parent && d[y].hash == hash && same(d[y].name, name)
  }

  lemma ChainMembers(d: map<Id, Dentry>, table: map<Chain, seq<Id>>, b: nat)
    requires TableOk(d, table)
    ensures forall y <- ChainOf(table, Hashed(b)) :: y in d && d[y].hashed && d[y].bucket == Some(b)
  {
    assert ChainOk(d, table, Hashed(b));
  }

  /** Whoever answers to the name is on the chain that is searched. */
  lemma NamedOnChain(d: map<Id, Dentry>, table: map<Chain, seq<Id>>, hashOf: (Id, nat) -> nat,
                     same: (string, string) -> bool, parent: Id, hash: nat, name: string)
    requires TableOk(d, table) && BucketsOk(d, hashOf)
    ensures forall y | Named(d, same, parent, hash, name, y) :: y in ChainOf(table, Hashed(hashOf(parent, hash)))
  {
    forall y | Named(d, same, parent, hash, name, y) ensures y in ChainOf(table, Hashed(hashOf(parent, hash))) {
      assert HashAt(d, table, y) && BucketAt(d, hashOf, y);
    }
  }
}
