/** The invariants of the dentry cache and what the elementary changes do to them. */
module DcacheInv {
  import opened Common
  import opened DcacheTree

  /** A hash chain of dentry_hashtable, or the list of anonymous dentries of a superblock. */
  datatype Chain = Hashed(bucket: nat) | Anon(sb: nat)

  // ------------------------------------------------------------------
  // Lists
  // ------------------------------------------------------------------

  /** q without the members of `gone`. */
  function Minus(q: seq<Id>, gone: set<Id>): seq<Id> {
    if q == [] then []
    else if q[0] in gone then Minus(q[1..], gone)
    else [q[0]] + Minus(q[1..], gone)
  }

  lemma {:induction false} MinusMembers(q: seq<Id>, gone: set<Id>)
    ensures forall x :: x in Minus(q, gone) <==> x in q && x !in gone
  {
    if q != [] {
      MinusMembers(q[1..], gone);
      assert q == [q[0]] + q[1..];
    }
  }

  lemma {:induction false} MinusNoDup(q: seq<Id>, gone: set<Id>)
    requires NoDup(q)
    ensures NoDup(Minus(q, gone))
  {
    if q != [] {
      MinusNoDup(q[1..], gone);
      MinusMembers(q[1..], gone);
      if q[0] !in gone {
        NoDupConcat([q[0]], Minus(q[1..], gone));
      }
    }
  }

  lemma {:induction false} MinusNothing(q: seq<Id>, gone: set<Id>)
    requires forall x <- q :: x !in gone
    ensures Minus(q, gone) == q
  {
    if q != [] {
      assert q[0] in q;
      assert forall x <- q[1..] :: x in q;
      MinusNothing(q[1..], gone);
    }
  }

  lemma {:induction false} MinusConcat(a: seq<Id>, b: seq<Id>, gone: set<Id>)
    ensures Minus(a + b, gone) == Minus(a, gone) + Minus(b, gone)
  {
    if a == [] {
      assert a + b == b;
    } else {
      assert (a + b)[1..] == a[1..] + b;
      MinusConcat(a[1..], b, gone);
    }
  }

  lemma {:induction false} MinusMinus(q: seq<Id>, a: set<Id>, b: set<Id>)
    ensures Minus(Minus(q, a), b) == Minus(q, a + b)
  {
    if q != [] {
      MinusMinus(q[1..], a, b);
    }
  }

  /** Taking one member out of a list without repetitions. */
  lemma {:induction false} MinusOne(q: seq<Id>, x: Id)
    requires NoDup(q)
    ensures |Minus(q, {x})| == if x in q then |q| - 1 else |q|
  {
    if q != [] {
      assert q == [q[0]] + q[1..];
      if q[0] == x {
        MinusNothing(q[1..], {x});
      } else {
        MinusOne(q[1..], x);
      }
    }
  }

  // ------------------------------------------------------------------
  // The invariants
  // ------------------------------------------------------------------

  /** d_count is the references held outside the cache plus one for each child. */
  ghost predicate CountAt(d: map<Id, Dentry>, held: map<Id, int>, x: Id) {
    x in d && x in held && held[x] >= 0 && d[x].count == held[x] + |d[x].subdirs|
  }

  ghost predicate CountOk(d: map<Id, Dentry>, held: map<Id, int>) {
    forall x {:trigger CountAt(d, held, x)} :: x in d ==> CountAt(d, held, x)
  }

  /** dentry_unused holds live dentries, each once, and nr_unused is its length. */
  ghost predicate ListOk(d: map<Id, Dentry>, unused: seq<Id>, nr: int) {
    && NoDup(unused) && nr == |unused|
    && (forall x <- unused :: x in d)
  }

  /** Every live dentry that nobody uses is on the list, `but` excepted. */
  ghost predicate ZerosListed(d: map<Id, Dentry>, unused: seq<Id>, but: set<Id>) {
    forall x :: x in d && d[x].count == 0 && x !in but ==> x in unused
  }

  function ChainOf(table: map<Chain, seq<Id>>, b: Chain): seq<Id> {
    if b in table then table[b] else []
  }

  /** The list a hashed dentry sits on. */
  function Place(e: Dentry): Chain {
    if e.bucket.Some? then Hashed(e.bucket.value) else Anon(e.sb)
  }

  ghost predicate HashAt(d: map<Id, Dentry>, table: map<Chain, seq<Id>>, x: Id) {
    x in d && (d[x].hashed ==> x in ChainOf(table, Place(d[x])))
  }

  ghost predicate ChainOk(d: map<Id, Dentry>, table: map<Chain, seq<Id>>, b: Chain) {
    && NoDup(ChainOf(table, b))
    && forall x <- ChainOf(table, b) :: x in d && d[x].hashed && Place(d[x]) == b
  }

  /** The chains hold exactly the hashed dentries, each on the list its d_bucket says. */
  ghost predicate TableOk(d: map<Id, Dentry>, table: map<Chain, seq<Id>>) {
    && (forall x {:trigger HashAt(d, table, x)} :: x in d ==> HashAt(d, table, x))
    && (forall b {:trigger ChainOk(d, table, b)} :: ChainOk(d, table, b))
  }

  /** A hashed dentry sits in the bucket of its parent and name hash; only a root may be without one. */
  ghost predicate BucketAt(d: map<Id, Dentry>, hashOf: (Id, nat) -> nat, x: Id) {
    && x in d
    && (d[x].hashed && (d[x].bucket.Some? || d[x].parent != x) ==> d[x].bucket == Some(hashOf(d[x].parent, d[x].hash)))
  }

  ghost predicate BucketsOk(d: map<Id, Dentry>, hashOf: (Id, nat) -> nat) {
    forall x {:trigger BucketAt(d, hashOf, x)} :: x in d ==> BucketAt(d, hashOf, x)
  }

  // ------------------------------------------------------------------
  // Taking a childless dentry out of the tree
  // ------------------------------------------------------------------

  function RemoveLeaf(d: map<Id, Dentry>, x: Id): map<Id, Dentry>
    requires x in d && d[x].parent in d
  {
    var p := d[x].parent;
    if p == x then d - {x}
    else (d - {x})[p := d[p].(subdirs := Minus(d[p].subdirs, {x}))]
  }

  lemma RemoveLeafTree(d: map<Id, Dentry>, rank: map<Id, nat>, x: Id)
    requires TreeOk(d, rank) && x in d && d[x].parent in d && d[x].subdirs == []
    ensures TreeOk(RemoveLeaf(d, x), rank)
    ensures RemoveLeaf(d, x).Keys == d.Keys - {x}
  {
    assert NodeOk(d, rank, x);
    var p, e := d[x].parent, RemoveLeaf(d, x);
    forall y | y in e ensures NodeOk(e, rank, y) {
      assert NodeOk(d, rank, y);
      MinusMembers(d[p].subdirs, {x});
      if y == p {
        MinusNoDup(d[p].subdirs, {x});
      }
    }
  }

  /** The dead child's reference to its parent passes to whoever killed it. */
  lemma RemoveLeafCount(d: map<Id, Dentry>, rank: map<Id, nat>, held: map<Id, int>, x: Id)
    requires TreeOk(d, rank) && CountOk(d, held) && x in d && d[x].parent in d && d[x].subdirs == []
    ensures d[x].parent in held
    ensures CountOk(RemoveLeaf(d, x), if d[x].parent == x then held else held[d[x].parent := held[d[x].parent] + 1])
  {
    assert NodeOk(d, rank, x) && CountAt(d, held, x);
    var p, e := d[x].parent, RemoveLeaf(d, x);
    assert CountAt(d, held, p) && NodeOk(d, rank, p);
    var held' := if p == x then held else held[p := held[p] + 1];
    forall y | y in e ensures CountAt(e, held', y) {
      assert CountAt(d, held, y);
      if y == p {
        MinusOne(d[p].subdirs, x);
      }
    }
  }

  lemma RemoveLeafList(d: map<Id, Dentry>, unused: seq<Id>, nr: int, but: set<Id>, x: Id)
    requires ListOk(d, unused, nr) && ZerosListed(d, unused, but) && x in d && d[x].parent in d
    ensures ListOk(RemoveLeaf(d, x), Minus(unused, {x}), |Minus(unused, {x})|)
    ensures ZerosListed(RemoveLeaf(d, x), Minus(unused, {x}), but)
    ensures |Minus(unused, {x})| == if x in unused then nr - 1 else nr
  {
    MinusMembers(unused, {x});
    MinusNoDup(unused, {x});
    MinusOne(unused, x);
  }

  lemma RemoveLeafTable(d: map<Id, Dentry>, table: map<Chain, seq<Id>>, hashOf: (Id, nat) -> nat, x: Id)
    requires TableOk(d, table) && BucketsOk(d, hashOf) && x in d && d[x].parent in d && !d[x].hashed
    ensures TableOk(RemoveLeaf(d, x), table) && BucketsOk(RemoveLeaf(d, x), hashOf)
  {
    var e := RemoveLeaf(d, x);
    forall y | y in e ensures HashAt(e, table, y) && BucketAt(e, hashOf, y) {
      assert HashAt(d, table, y) && BucketAt(d, hashOf, y);
    }
    forall b ensures ChainOk(e, table, b) {
      assert ChainOk(d, table, b);
    }
  }

  // ------------------------------------------------------------------
  // Changing one dentry in fields that leave the tree alone
  // ------------------------------------------------------------------

  ghost predicate SameLinks(a: Dentry, b: Dentry) {
    a.parent == b.parent && a.subdirs == b.subdirs
  }

  lemma TouchTree(d: map<Id, Dentry>, rank: map<Id, nat>, x: Id, e: Dentry)
    requires TreeOk(d, rank) && x in d && SameLinks(d[x], e)
    ensures TreeOk(d[x := e], rank)
  {
    var f := d[x := e];
    forall y | y in f ensures NodeOk(f, rank, y) {
      assert NodeOk(d, rank, y);
    }
  }

  lemma TouchCount(d: map<Id, Dentry>, held: map<Id, int>, x: Id, e: Dentry, delta: int)
    requires CountOk(d, held) && x in d && e.subdirs == d[x].subdirs && e.count == d[x].count + delta
    requires x in held && held[x] + delta >= 0
    ensures CountOk(d[x := e], held[x := held[x] + delta])
  {
    var f, held' := d[x := e], held[x := held[x] + delta];
    forall y | y in f ensures CountAt(f, held', y) {
      assert CountAt(d, held, y);
    }
  }

  /** Neither hashed nor the bucket changes, nor what the bucket is computed from. */
  lemma TouchTable(d: map<Id, Dentry>, table: map<Chain, seq<Id>>, hashOf: (Id, nat) -> nat, x: Id, e: Dentry)
    requires TableOk(d, table) && BucketsOk(d, hashOf) && x in d
    requires e.hashed == d[x].hashed && Place(e) == Place(d[x]) && e.bucket == d[x].bucket
    requires e.parent == d[x].parent && e.hash == d[x].hash
    ensures TableOk(d[x := e], table) && BucketsOk(d[x := e], hashOf)
  {
    var f := d[x := e];
    forall y | y in f ensures HashAt(f, table, y) && BucketAt(f, hashOf, y) {
      assert HashAt(d, table, y) && BucketAt(d, hashOf, y);
    }
    forall b ensures ChainOk(f, table, b) {
      assert ChainOk(d, table, b);
    }
  }

  /** __d_drop: off the chain, flag set, d_bucket left as it was. */
  function DropTable(d: map<Id, Dentry>, table: map<Chain, seq<Id>>, x: Id): map<Chain, seq<Id>>
    requires x in d
  {
    if d[x].hashed then table[Place(d[x]) := Minus(ChainOf(table, Place(d[x])), {x})] else table
  }

  lemma DropKeepsTable(d: map<Id, Dentry>, table: map<Chain, seq<Id>>, x: Id)
    requires TableOk(d, table) && x in d
    ensures TableOk(d[x := d[x].(hashed := false)], DropTable(d, table, x))
  {
    var f, t := d[x := d[x].(hashed := false)], DropTable(d, table, x);
    assert HashAt(d, table, x);
    var c := ChainOf(table, Place(d[x]));
    MinusMembers(c, {x});
    forall y | y in f ensures HashAt(f, t, y) {
      assert HashAt(d, table, y);
    }
    forall b ensures ChainOk(f, t, b) {
      assert ChainOk(d, table, b);
      if b == Place(d[x]) {
        MinusNoDup(c, {x});
      }
    }
  }

  lemma DropKeepsBuckets(d: map<Id, Dentry>, hashOf: (Id, nat) -> nat, x: Id)
    requires BucketsOk(d, hashOf) && x in d
    ensures BucketsOk(d[x := d[x].(hashed := false)], hashOf)
  {
    var f := d[x := d[x].(hashed := false)];
    forall y | y in f ensures BucketAt(f, hashOf, y) {
      assert BucketAt(d, hashOf, y);
    }
  }

  /** Putting an unhashed dentry at the head of a chain. */
  function AddTable(table: map<Chain, seq<Id>>, b: Chain, x: Id): map<Chain, seq<Id>> {
    table[b := [x] + ChainOf(table, b)]
  }

  lemma AddKeepsTable(d: map<Id, Dentry>, table: map<Chain, seq<Id>>, x: Id, e: Dentry)
    requires TableOk(d, table) && x in d && !d[x].hashed && e.hashed
    ensures TableOk(d[x := e], AddTable(table, Place(e), x))
  {
    var f, t := d[x := e], AddTable(table, Place(e), x);
    forall y | y in f ensures HashAt(f, t, y) {
      assert HashAt(d, table, y);
    }
    forall b ensures ChainOk(f, t, b) {
      assert ChainOk(d, table, b);
      assert x !in ChainOf(table, b);
      if b == Place(e) {
        NoDupConcat([x], ChainOf(table, b));
      }
    }
  }
}
