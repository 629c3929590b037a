/** d_move: renaming by letting one dentry take another's place in the tree and in the hash. */
module DcacheMove {
  import opened Common
  import opened DcacheTree
  import opened DcacheInv

  /** list_del(d_child) */
  function Detach(d: map<Id, Dentry>, x: Id): (e: map<Id, Dentry>)
    requires x in d && d[x].parent in d
    ensures e.Keys == d.Keys
  {
    var p := d[x].parent;
    if p == x then d else d[p := d[p].(subdirs := Minus(d[p].subdirs, {x}))]
  }

  /** list_add(d_child) to the list of the dentry's parent. */
  function Attach(d: map<Id, Dentry>, x: Id): (e: map<Id, Dentry>)
    requires x in d && d[x].parent in d
    ensures e.Keys == d.Keys
  {
    var p := d[x].parent;
    d[p := d[p].(subdirs := [x] + d[p].subdirs)]
  }

  /** Names and hash values are exchanged; what the target's name becomes does not matter. */
  function SwitchNames(d: map<Id, Dentry>, x: Id, t: Id, junk: string): (e: map<Id, Dentry>)
    requires x in d && t in d
    ensures e.Keys == d.Keys
  {
    d[x := d[x].(name := d[t].name, hash := d[t].hash)][t := d[t].(name := junk, hash := d[x].hash)]
  }

  /** A root takes the target's parent and leaves it a root; otherwise the parents are exchanged. */
  function SwitchParents(d: map<Id, Dentry>, x: Id, t: Id): (e: map<Id, Dentry>)
    requires x in d && t in d
    ensures e.Keys == d.Keys
  {
    d[x := d[x].(parent := d[t].parent)][t := d[t].(parent := if d[x].parent == x then t else d[x].parent)]
  }

  function Relink(d: map<Id, Dentry>, x: Id, t: Id, junk: string): map<Id, Dentry>
    requires x in d && t in d && x != t && d[x].parent in d && d[t].parent in d
  {
    var d1 := Detach(Detach(d, x), t);
    var d2 := SwitchParents(SwitchNames(d1, x, t, junk), x, t);
    AttachBoth(d2, x, t, d[x].parent != x)
  }

  function AttachBoth(d: map<Id, Dentry>, x: Id, t: Id, both: bool): (e: map<Id, Dentry>)
    requires x in d && t in d && d[x].parent in d && (both ==> d[t].parent in d)
    ensures e.Keys == d.Keys
  {
    Attach(if both then Attach(d, t) else d, x)
  }

  ghost predicate MayMove(d: map<Id, Dentry>, rank: map<Id, nat>, x: Id, t: Id) {
    && TreeOk(d, rank) && x in d && t in d && x != t
    && d[t].parent != t
    && !Above(d, rank, x, t) && !Above(d, rank, t, x)
  }

  /** The children list of p afterwards. */
  function NewSubdirs(d: map<Id, Dentry>, x: Id, t: Id, p: Id): seq<Id>
    requires p in d && x in d && t in d
  {
    (if p == d[t].parent then [x] else [])
    + (if d[x].parent != x && p == d[x].parent then [t] else [])
    + Minus(d[p].subdirs, {x, t})
  }

  function NewParent(d: map<Id, Dentry>, x: Id, t: Id, y: Id): Id
    requires y in d && x in d && t in d
  {
    if y == x then d[t].parent
    else if y == t then (if d[x].parent == x then t else d[x].parent)
    else d[y].parent
  }

  lemma {:induction false} MinusAgree(q: seq<Id>, a: set<Id>, b: set<Id>)
    requires forall y <- q :: y in a <==> y in b
    ensures Minus(q, a) == Minus(q, b)
  {
    if q != [] {
      assert q[0] in q;
      assert forall y <- q[1..] :: y in q;
      MinusAgree(q[1..], a, b);
    }
  }

  /** Only its parent's list holds a dentry. */
  lemma MinusElsewhere(d: map<Id, Dentry>, rank: map<Id, nat>, x: Id, t: Id, p: Id)
    requires TreeOk(d, rank) && p in d && x in d && t in d
    ensures Minus(Minus(d[p].subdirs, {x}), {t}) == Minus(d[p].subdirs, {x, t})
    ensures p != d[x].parent || p == x ==> Minus(d[p].subdirs, {x, t}) == Minus(d[p].subdirs, {t})
    ensures p != d[t].parent || p == t ==> Minus(d[p].subdirs, {x, t}) == Minus(d[p].subdirs, {x})
    ensures (p != d[x].parent || p == x) && (p != d[t].parent || p == t) ==>
      Minus(d[p].subdirs, {x, t}) == d[p].subdirs
  {
    var q := d[p].subdirs;
    assert NodeOk(d, rank, p);
    assert {x} + {t} == {x, t};
    MinusMinus(q, {x}, {t});
    if p != d[x].parent || p == x {
      MinusAgree(q, {x, t}, {t});
    }
    if p != d[t].parent || p == t {
      MinusAgree(q, {x, t}, {x});
    }
    if (p != d[x].parent || p == x) && (p != d[t].parent || p == t) {
      MinusNothing(q, {x, t});
    }
  }

  lemma ParentsApart(d: map<Id, Dentry>, rank: map<Id, nat>, x: Id, t: Id)
    requires MayMove(d, rank, x, t)
    ensures d[x].parent in d && d[t].parent in d && d[x].parent != t && d[t].parent != x
  {
    assert NodeOk(d, rank, x) && NodeOk(d, rank, t);
    AboveSelf(d, rank, d[x].parent);
    AboveSelf(d, rank, d[t].parent);
  }

  lemma DetachBoth(d: map<Id, Dentry>, rank: map<Id, nat>, x: Id, t: Id, p: Id)
    requires MayMove(d, rank, x, t) && p in d && d[x].parent in d && d[t].parent in d
    ensures Detach(d, x)[p].parent == d[p].parent
    ensures var e := Detach(Detach(d, x), t);
      e.Keys == d.Keys && e[p] == d[p].(subdirs := Minus(d[p].subdirs, {x, t}))
  {
    hide TreeOk, Above, Minus;
    ParentsApart(d, rank, x, t);
    MinusElsewhere(d, rank, x, t, p);
    MinusElsewhere(d, rank, x, t, d[t].parent);
  }

  lemma SwitchBoth(d: map<Id, Dentry>, x: Id, t: Id, junk: string, p: Id)
    requires x in d && t in d && x != t && p in d
    ensures var e := SwitchParents(SwitchNames(d, x, t, junk), x, t);
      && e.Keys == d.Keys
      && e[x] == d[x].(parent := d[t].parent, name := d[t].name, hash := d[t].hash)
      && e[t] == d[t].(parent := NewParent(d, x, t, t), name := junk, hash := d[x].hash)
      && (p != x && p != t ==> e[p] == d[p])
  {}

  lemma AttachIs(d: map<Id, Dentry>, x: Id, t: Id, both: bool, p: Id)
    requires x in d && t in d && d[x].parent in d && (both ==> d[t].parent in d) && p in d
    ensures AttachBoth(d, x, t, both)[p] == d[p].(subdirs :=
      (if p == d[x].parent then [x] else []) + (if both && p == d[t].parent then [t] else []) + d[p].subdirs)
  {}

  /** What the sequence of list and pointer operations amounts to, dentry by dentry. */
  function Relinked(d: map<Id, Dentry>, x: Id, t: Id, junk: string, p: Id): Dentry
    requires x in d && t in d && p in d
  {
    var e := d[p].(parent := NewParent(d, x, t, p), subdirs := NewSubdirs(d, x, t, p));
    if p == x then e.(name := d[t].name, hash := d[t].hash)
    else if p == t then e.(name := junk, hash := d[x].hash)
    else e
  }

  lemma RelinkIs(d: map<Id, Dentry>, rank: map<Id, nat>, x: Id, t: Id, junk: string, p: Id)
    requires MayMove(d, rank, x, t) && p in d
    ensures d[x].parent in d && d[t].parent in d
    ensures Relink(d, x, t, junk).Keys == d.Keys && Relink(d, x, t, junk)[p] == Relinked(d, x, t, junk, p)
  {
    hide TreeOk, Above, Minus, Detach, SwitchNames, SwitchParents, AttachBoth;
    ParentsApart(d, rank, x, t);
    DetachBoth(d, rank, x, t, x);
    DetachBoth(d, rank, x, t, t);
    DetachBoth(d, rank, x, t, p);
    var d1 := Detach(Detach(d, x), t);
    SwitchBoth(d1, x, t, junk, p);
    var d2 := SwitchParents(SwitchNames(d1, x, t, junk), x, t);
    AttachIs(d2, x, t, d[x].parent != x, p);
  }

  // ------------------------------------------------------------------
  // The tree and the counts
  // ------------------------------------------------------------------

  /** e is d with the links of a move carried out. */
  ghost predicate MovedLinks(d: map<Id, Dentry>, e: map<Id, Dentry>, x: Id, t: Id) {
    && e.Keys == d.Keys && x in d && t in d
    && forall y <- d :: e[y].parent == NewParent(d, x, t, y) && e[y].subdirs == NewSubdirs(d, x, t, y)
  }

  /** The two subtrees are ranked above everything else. */
  ghost function MovedRank(d: map<Id, Dentry>, rank: map<Id, nat>, n: nat, x: Id, t: Id): (r: map<Id, nat>)
    requires TreeOk(d, rank) && Bounded(d, rank, n)
    ensures r.Keys == d.Keys
  {
    map y | y in d :: if Above(d, rank, x, y) || Above(d, rank, t, y) then rank[y] + n else rank[y]
  }

  /** Away from x and t, a parent is ranked below its child as before. */
  lemma MovedRankElsewhere(d: map<Id, Dentry>, rank: map<Id, nat>, n: nat, x: Id, t: Id, y: Id)
    requires MayMove(d, rank, x, t) && Bounded(d, rank, n) && y in d && y != x && y != t && d[y].parent != y
    ensures d[y].parent in d && MovedRank(d, rank, n, x, t)[d[y].parent] < MovedRank(d, rank, n, x, t)[y]
  {
    assert NodeOk(d, rank, y);
  }

  lemma ParentsOutside(d: map<Id, Dentry>, rank: map<Id, nat>, x: Id, t: Id)
    requires MayMove(d, rank, x, t)
    ensures d[x].parent in d && d[t].parent in d
    ensures !Above(d, rank, x, d[t].parent) && !Above(d, rank, t, d[t].parent)
    ensures d[x].parent != x ==> !Above(d, rank, x, d[x].parent) && !Above(d, rank, t, d[x].parent)
  {
    assert NodeOk(d, rank, x) && NodeOk(d, rank, t);
    if Above(d, rank, t, d[t].parent) {
      AboveRank(d, rank, t, d[t].parent);
    }
    if d[x].parent != x && Above(d, rank, x, d[x].parent) {
      AboveRank(d, rank, x, d[x].parent);
    }
  }

  lemma MovedRankOk(d: map<Id, Dentry>, rank: map<Id, nat>, n: nat, x: Id, t: Id, y: Id)
    requires MayMove(d, rank, x, t) && Bounded(d, rank, n) && y in d && NewParent(d, x, t, y) != y
    ensures NewParent(d, x, t, y) in d
    ensures MovedRank(d, rank, n, x, t)[NewParent(d, x, t, y)] < MovedRank(d, rank, n, x, t)[y]
  {
    ParentsOutside(d, rank, x, t);
    if y != x && y != t {
      hide TreeOk, Above, MovedRank;
      MovedRankElsewhere(d, rank, n, x, t, y);
    } else {
      AboveSelf(d, rank, y);
    }
  }

  lemma NewSubdirsMembers(d: map<Id, Dentry>, rank: map<Id, nat>, x: Id, t: Id, p: Id, y: Id)
    requires MayMove(d, rank, x, t) && p in d
    ensures y in NewSubdirs(d, x, t, p) <==> y in d && NewParent(d, x, t, y) == p && y != p
  {
    hide Minus, Above;
    ParentsApart(d, rank, x, t);
    MinusMembers(d[p].subdirs, {x, t});
    assert NodeOk(d, rank, p);
    if y in d {
      assert NodeOk(d, rank, y);
    }
  }

  lemma NewSubdirsNoDup(d: map<Id, Dentry>, rank: map<Id, nat>, x: Id, t: Id, p: Id)
    requires MayMove(d, rank, x, t) && p in d
    ensures NoDup(NewSubdirs(d, x, t, p))
  {
    hide Minus, Above;
    MinusMembers(d[p].subdirs, {x, t});
    assert NodeOk(d, rank, p);
    MinusNoDup(d[p].subdirs, {x, t});
    var b := if d[x].parent != x && p == d[x].parent then [t] else [];
    NoDupConcat(b, Minus(d[p].subdirs, {x, t}));
    NoDupConcat(if p == d[t].parent then [x] else [], b + Minus(d[p].subdirs, {x, t}));
    assert NewSubdirs(d, x, t, p) == (if p == d[t].parent then [x] else []) + (b + Minus(d[p].subdirs, {x, t}));
  }

  lemma MoveKeepsNode(d: map<Id, Dentry>, rank: map<Id, nat>, n: nat, x: Id, t: Id, e: map<Id, Dentry>, y: Id)
    requires MayMove(d, rank, x, t) && Bounded(d, rank, n) && MovedLinks(d, e, x, t) && y in d
    ensures NodeOk(e, MovedRank(d, rank, n, x, t), y)
  {
    hide TreeOk, Above, MovedRank, NewSubdirs, NewParent;
    NewSubdirsNoDup(d, rank, x, t, y);
    var p := NewParent(d, x, t, y);
    forall z ensures z in e[y].subdirs <==> z in d && e[z].parent == y && z != y {
      NewSubdirsMembers(d, rank, x, t, y, z);
    }
    if p != y {
      MovedRankOk(d, rank, n, x, t, y);
      NewSubdirsMembers(d, rank, x, t, p, y);
    }
  }

  /** The move leaves a tree: no cycle, and children lists that match the parent links. */
  lemma MoveKeepsTree(d: map<Id, Dentry>, rank: map<Id, nat>, n: nat, x: Id, t: Id, e: map<Id, Dentry>)
    requires MayMove(d, rank, x, t) && Bounded(d, rank, n) && MovedLinks(d, e, x, t)
    ensures TreeOk(e, MovedRank(d, rank, n, x, t))
  {
    hide Above, MovedRank, NewSubdirs, NewParent, NodeOk;
    var rank' := MovedRank(d, rank, n, x, t);
    forall y | y in e ensures NodeOk(e, rank', y) {
      MoveKeepsNode(d, rank, n, x, t, e, y);
    }
  }

  lemma {:induction false} MinusLength(q: seq<Id>, a: Id, b: Id)
    requires NoDup(q) && a != b
    ensures |Minus(q, {a, b})| == |q| - (if a in q then 1 else 0) - (if b in q then 1 else 0)
  {
    assert {a} + {b} == {a, b};
    MinusMinus(q, {a}, {b});
    MinusOne(q, a);
    MinusNoDup(q, {a});
    MinusMembers(q, {a});
    MinusOne(Minus(q, {a}), b);
  }

  /** Each parent loses as many children as it gains. */
  lemma NewSubdirsLength(d: map<Id, Dentry>, rank: map<Id, nat>, x: Id, t: Id, p: Id)
    requires MayMove(d, rank, x, t) && p in d
    ensures |NewSubdirs(d, x, t, p)| == |d[p].subdirs|
  {
    hide Minus, Above;
    assert NodeOk(d, rank, p) && NodeOk(d, rank, x) && NodeOk(d, rank, t);
    MinusLength(d[p].subdirs, x, t);
  }

  lemma MoveKeepsCounts(d: map<Id, Dentry>, rank: map<Id, nat>, held: map<Id, int>, x: Id, t: Id, e: map<Id, Dentry>)
    requires MayMove(d, rank, x, t) && MovedLinks(d, e, x, t) && CountOk(d, held)
    requires forall y <- d :: e[y].count == d[y].count
    ensures CountOk(e, held)
  {
    hide TreeOk, Above, NewSubdirs, NewParent;
    forall y | y in e ensures CountAt(e, held, y) {
      assert CountAt(d, held, y);
      NewSubdirsLength(d, rank, x, t, y);
    }
  }

  // ------------------------------------------------------------------
  // The hash
  // ------------------------------------------------------------------

  /** The chain x has to be put on, when it is not on the target's already. */
  predicate Rechain(d: map<Id, Dentry>, x: Id, t: Id)
    requires x in d && t in d
  {
    !d[x].hashed || d[x].bucket != d[t].bucket
  }

  /** The dentries after the hash queues have been dealt with. */
  function Requeue(d: map<Id, Dentry>, x: Id, t: Id): (e: map<Id, Dentry>)
    requires x in d && t in d
    ensures e.Keys == d.Keys
  {
    d[x := d[x].(hashed := true, bucket := d[t].bucket)][t := d[t].(hashed := false)]
  }

  /** A dentry's d_bucket is the one its parent and name hash to, whether or not it is hashed. */
  ghost predicate Settled(e: Dentry, hashOf: (Id, nat) -> nat) {
    e.bucket == Some(hashOf(e.parent, e.hash))
  }

  /** What d_move does to a dentry, hash and tree together. */
  function Moved(d: map<Id, Dentry>, x: Id, t: Id, junk: string, p: Id): Dentry
    requires x in d && t in d && p in d
  {
    var e := Relinked(d, x, t, junk, p);
    if p == x then e.(hashed := true, bucket := d[t].bucket)
    else if p == t then e.(hashed := false)
    else e
  }

  function Move(d: map<Id, Dentry>, x: Id, t: Id, junk: string): (e: map<Id, Dentry>)
    requires x in d && t in d && x != t && d[x].parent in d && d[t].parent in d
  {
    Relink(Requeue(d, x, t), x, t, junk)
  }

  lemma RequeueTree(d: map<Id, Dentry>, rank: map<Id, nat>, x: Id, t: Id)
    requires MayMove(d, rank, x, t)
    ensures MayMove(Requeue(d, x, t), rank, x, t)
  {
    var e := Requeue(d, x, t);
    var d1 := d[x := d[x].(hashed := true, bucket := d[t].bucket)];
    TouchTree(d, rank, x, d1[x]);
    TouchTree(d1, rank, t, d[t].(hashed := false));
    SameAbove(d, e, rank, x, t);
    SameAbove(d, e, rank, t, x);
  }

  lemma {:induction false} SameAbove(d: map<Id, Dentry>, e: map<Id, Dentry>, rank: map<Id, nat>, a: Id, y: Id)
    requires TreeOk(d, rank) && TreeOk(e, rank) && d.Keys == e.Keys && y in d
    requires forall z <- d :: e[z].parent == d[z].parent
    ensures Above(d, rank, a, y) <==> Above(e, rank, a, y)
    decreases if y in rank then rank[y] else 0
  {
    assert NodeOk(d, rank, y);
    if d[y].parent != y {
      SameAbove(d, e, rank, a, d[y].parent);
    }
  }

  /** Whether a move is allowed depends on the links alone. */
  lemma SameMove(d: map<Id, Dentry>, e: map<Id, Dentry>, rank: map<Id, nat>, x: Id, t: Id)
    requires MayMove(d, rank, x, t) && TreeOk(e, rank) && d.Keys == e.Keys
    requires forall z <- d :: e[z].parent == d[z].parent
    ensures MayMove(e, rank, x, t)
  {
    SameAbove(d, e, rank, x, t);
    SameAbove(d, e, rank, t, x);
  }

  /** d_move dentry by dentry. */
  lemma MoveIs(d: map<Id, Dentry>, rank: map<Id, nat>, x: Id, t: Id, junk: string, p: Id)
    requires MayMove(d, rank, x, t) && p in d
    ensures d[x].parent in d && d[t].parent in d
    ensures Move(d, x, t, junk).Keys == d.Keys && Move(d, x, t, junk)[p] == Moved(d, x, t, junk, p)
  {
    hide TreeOk, Above, Minus, Relink;
    ParentsApart(d, rank, x, t);
    RequeueTree(d, rank, x, t);
    RelinkIs(Requeue(d, x, t), rank, x, t, junk, p);
  }

  /** The hash chains after d_move. */
  function MoveTable(d: map<Id, Dentry>, table: map<Chain, seq<Id>>, x: Id, t: Id): map<Chain, seq<Id>>
    requires x in d && t in d
  {
    var e := d[x].(hashed := true, bucket := d[t].bucket);
    DropTable(d[x := e], if Rechain(d, x, t) then AddTable(DropTable(d, table, x), Place(e), x) else table, t)
  }

  lemma RequeueTable(d: map<Id, Dentry>, table: map<Chain, seq<Id>>, x: Id, t: Id)
    requires TableOk(d, table) && x in d && t in d && x != t
    ensures TableOk(Requeue(d, x, t), MoveTable(d, table, x, t))
  {
    hide TableOk, DropTable, AddTable;
    var e := d[x].(hashed := true, bucket := d[t].bucket);
    if Rechain(d, x, t) {
      DropKeepsTable(d, table, x);
      var f := d[x := d[x].(hashed := false)];
      AddKeepsTable(f, DropTable(d, table, x), x, e);
      assert f[x := e] == d[x := e];
    } else {
      assert d == d[x := e];
    }
    DropKeepsTable(d[x := e], if Rechain(d, x, t) then AddTable(DropTable(d, table, x), Place(e), x) else table, t);
  }

  lemma SamePlaces(d: map<Id, Dentry>, e: map<Id, Dentry>, table: map<Chain, seq<Id>>)
    requires TableOk(d, table) && e.Keys == d.Keys
    requires forall y <- d :: e[y].hashed == d[y].hashed && Place(e[y]) == Place(d[y])
    ensures TableOk(e, table)
  {
    forall y | y in e ensures HashAt(e, table, y) {
      assert HashAt(d, table, y);
    }
    forall b ensures ChainOk(e, table, b) {
      assert ChainOk(d, table, b);
    }
  }

  /** The chains hold exactly the hashed dentries again, whatever the target's bucket was. */
  lemma MoveKeepsTable(d: map<Id, Dentry>, rank: map<Id, nat>, table: map<Chain, seq<Id>>, x: Id, t: Id, junk: string)
    requires MayMove(d, rank, x, t) && TableOk(d, table)
    ensures d[x].parent in d && d[t].parent in d
    ensures TableOk(Move(d, x, t, junk), MoveTable(d, table, x, t))
  {
    hide TreeOk, Above, TableOk, MoveTable, Relink, Relinked;
    ParentsApart(d, rank, x, t);
    RequeueTable(d, table, x, t);
    RequeueTree(d, rank, x, t);
    var f, e := Requeue(d, x, t), Move(d, x, t, junk);
    RelinkIs(f, rank, x, t, junk, x);
    forall y <- f ensures e[y].hashed == f[y].hashed && Place(e[y]) == Place(f[y]) {
      RelinkIs(f, rank, x, t, junk, y);
      RelinkedPlace(f, x, t, junk, y);
    }
    SamePlaces(f, e, MoveTable(d, table, x, t));
  }

  lemma RelinkedPlace(d: map<Id, Dentry>, x: Id, t: Id, junk: string, p: Id)
    requires x in d && t in d && p in d
    ensures Relinked(d, x, t, junk, p).hashed == d[p].hashed && Place(Relinked(d, x, t, junk, p)) == Place(d[p])
  {}

  /**
    Every hashed dentry sits in the bucket of its parent and name after the
    move if and only if the target's d_bucket was the bucket of its own parent
    and name before it.  Nothing ensures that of an unhashed target: its
    d_bucket may be that of another name, or NULL.
  */
  lemma MoveBuckets(d: map<Id, Dentry>, rank: map<Id, nat>, hashOf: (Id, nat) -> nat, x: Id, t: Id, junk: string)
    requires MayMove(d, rank, x, t) && BucketsOk(d, hashOf)
    ensures d[x].parent in d && d[t].parent in d
    ensures BucketsOk(Move(d, x, t, junk), hashOf) <==> Settled(d[t], hashOf)
  {
    hide TreeOk, Above, Move, NewSubdirs;
    ParentsApart(d, rank, x, t);
    var e := Move(d, x, t, junk);
    MoveIs(d, rank, x, t, junk, x);
    assert BucketAt(e, hashOf, x) <==> Settled(d[t], hashOf);
    forall y | y in e && y != x ensures BucketAt(e, hashOf, y) {
      MoveIs(d, rank, x, t, junk, y);
      assert BucketAt(d, hashOf, y);
    }
  }

  /** A dentry that was moved over keeps the bucket of the name it lost. */
  lemma TargetStale(d: map<Id, Dentry>, rank: map<Id, nat>, hashOf: (Id, nat) -> nat, x: Id, t: Id, junk: string)
    requires MayMove(d, rank, x, t) && Settled(d[t], hashOf)
    ensures d[x].parent in d && d[t].parent in d && t in Move(d, x, t, junk)
    ensures Settled(Move(d, x, t, junk)[t], hashOf) <==>
      hashOf(d[t].parent, d[t].hash) == hashOf(if d[x].parent == x then t else d[x].parent, d[x].hash)
  {
    hide TreeOk, Above, Move, NewSubdirs;
    ParentsApart(d, rank, x, t);
    MoveIs(d, rank, x, t, junk, t);
  }

  lemma MoveTree(d: map<Id, Dentry>, rank: map<Id, nat>, n: nat, x: Id, t: Id, junk: string)
    requires MayMove(d, rank, x, t) && Bounded(d, rank, n)
    ensures d[x].parent in d && d[t].parent in d && TreeOk(Move(d, x, t, junk), MovedRank(d, rank, n, x, t))
  {
    hide TreeOk, Above, Move, NewSubdirs, NewParent, MovedRank, Bounded;
    MoveIs(d, rank, x, t, junk, x);
    var e := Move(d, x, t, junk);
    forall y <- d ensures e[y].parent == NewParent(d, x, t, y) && e[y].subdirs == NewSubdirs(d, x, t, y) {
      MoveIs(d, rank, x, t, junk, y);
    }
    MoveKeepsTree(d, rank, n, x, t, e);
  }

  lemma MoveKeeps(d: map<Id, Dentry>, rank: map<Id, nat>, held: map<Id, int>, n: nat, x: Id, t: Id, junk: string)
    requires MayMove(d, rank, x, t) && Bounded(d, rank, n) && CountOk(d, held)
    ensures d[x].parent in d && d[t].parent in d
    ensures TreeOk(Move(d, x, t, junk), MovedRank(d, rank, n, x, t)) && CountOk(Move(d, x, t, junk), held)
  {
    hide TreeOk, Above, CountOk, Move, NewSubdirs, NewParent, MovedRank, Bounded;
    MoveIs(d, rank, x, t, junk, x);
    var e := Move(d, x, t, junk);
    forall y <- d ensures e[y].parent == NewParent(d, x, t, y) && e[y].subdirs == NewSubdirs(d, x, t, y)
                          && e[y].count == d[y].count
    {
      MoveIs(d, rank, x, t, junk, y);
    }
    MoveTree(d, rank, n, x, t, junk);
    MoveKeepsCounts(d, rank, held, x, t, e);
  }

  lemma MoveKeepsList(d: map<Id, Dentry>, rank: map<Id, nat>, unused: seq<Id>, nr: int, x: Id, t: Id, junk: string)
    requires MayMove(d, rank, x, t) && ListOk(d, unused, nr) && ZerosListed(d, unused, {})
    ensures d[x].parent in d && d[t].parent in d
    ensures var e := Move(d, x, t, junk);
      && ListOk(e, unused, nr) && ZerosListed(e, unused, {}) && |e| == |d| && e.Keys == d.Keys
      && forall y <- e :: e[y] == Moved(d, x, t, junk, y)
  {
    hide TreeOk, Above, Move, NewSubdirs, NewParent;
    MoveIs(d, rank, x, t, junk, x);
    var e := Move(d, x, t, junk);
    forall y <- d ensures e[y] == Moved(d, x, t, junk, y) && e[y].count == d[y].count {
      MoveIs(d, rank, x, t, junk, y);
    }
    assert |e.Keys| == |d.Keys|;
  }

  // ------------------------------------------------------------------
  // Moves along a path
  // ------------------------------------------------------------------

  lemma DetachParent(d: map<Id, Dentry>, x: Id, y: Id)
    requires x in d && d[x].parent in d && y in d
    ensures Detach(d, x)[y].parent == d[y].parent
  {}

  /** Whatever x and t are to each other, the parents are exchanged and x ends up in its new parent's list. */
  lemma MoveParents(d: map<Id, Dentry>, x: Id, t: Id, junk: string, y: Id)
    requires x in d && t in d && x != t && d[x].parent in d && d[t].parent in d && y in d
    ensures var e := Move(d, x, t, junk);
      && e.Keys == d.Keys && e[y].parent == NewParent(d, x, t, y)
      && x in e[d[t].parent].subdirs && (d[x].parent != x ==> t in e[d[x].parent].subdirs)
  {
    hide Minus, SwitchNames, SwitchParents, AttachBoth, Detach;
    var d0 := Requeue(d, x, t);
    DetachParent(d0, x, t);
    var d1 := Detach(Detach(d0, x), t);
    forall z <- d ensures d1[z].parent == d[z].parent {
      DetachParent(d0, x, z);
      DetachParent(Detach(d0, x), t, z);
    }
    SwitchBoth(d1, x, t, junk, y);
    var d2 := SwitchParents(SwitchNames(d1, x, t, junk), x, t);
    AttachIs(d2, x, t, d[x].parent != x, y);
    AttachIs(d2, x, t, d[x].parent != x, d[t].parent);
    AttachIs(d2, x, t, d[x].parent != x, d[x].parent);
  }

  /** The way up from y to `top`, on which `other` does not lie, is still there. */
  lemma {:induction false} StillBelow(d: map<Id, Dentry>, rank: map<Id, nat>, e: map<Id, Dentry>, r: map<Id, nat>,
                                      top: Id, other: Id, y: Id)
    requires TreeOk(d, rank) && TreeOk(e, r) && e.Keys == d.Keys && top in d && y in d
    requires forall z <- d :: z != top && z != other ==> e[z].parent == d[z].parent
    requires Above(d, rank, top, y) && !Above(d, rank, other, y)
    ensures top in r && y in r && r[top] <= r[y]
    decreases if y in rank then rank[y] else 0
  {
    assert NodeOk(d, rank, y) && NodeOk(e, r, y) && NodeOk(e, r, top);
    if y != top {
      StillBelow(d, rank, e, r, top, other, d[y].parent);
    }
  }

  /** A dentry that gets a parent below itself is on a cycle. */
  lemma NoTree(d: map<Id, Dentry>, rank: map<Id, nat>, e: map<Id, Dentry>, r: map<Id, nat>, top: Id, other: Id, p: Id)
    requires TreeOk(d, rank) && e.Keys == d.Keys && top in d && other in d && p in d
    requires forall z <- d :: z != top && z != other ==> e[z].parent == d[z].parent
    requires Above(d, rank, top, p) && !Above(d, rank, other, p)
    requires e[top].parent == p && top in e[p].subdirs
    ensures !TreeOk(e, r)
  {
    hide TreeOk, Above;
    if TreeOk(e, r) {
      ChildRank(e, r, top, p);
      StillBelow(d, rank, e, r, top, other, p);
    }
  }

  lemma ChildRank(d: map<Id, Dentry>, rank: map<Id, nat>, y: Id, p: Id)
    requires TreeOk(d, rank) && p in d && y in d && y in d[p].subdirs && d[y].parent == p
    ensures y in rank && p in rank && rank[p] < rank[y]
  {
    assert NodeOk(d, rank, p) && NodeOk(d, rank, y);
  }

  /** A parent is above its child, and not the other way round. */
  lemma ParentAbove(d: map<Id, Dentry>, rank: map<Id, nat>, a: Id, y: Id)
    requires TreeOk(d, rank) && y in d && Above(d, rank, a, y) && a != y
    ensures d[y].parent in d && d[y].parent != y && Above(d, rank, a, d[y].parent) && !Above(d, rank, y, d[y].parent)
  {
    assert NodeOk(d, rank, y);
    if Above(d, rank, y, d[y].parent) {
      AboveRank(d, rank, y, d[y].parent);
    }
  }

  /**
    d_move does not look how the two dentries lie to each other. It leaves a
    tree if and only if neither is above the other.
  */
  lemma MoveIsTree(d: map<Id, Dentry>, rank: map<Id, nat>, x: Id, t: Id, junk: string)
    requires TreeOk(d, rank) && x in d && t in d && x != t && d[t].parent != t
    ensures d[x].parent in d && d[t].parent in d
    ensures (exists r :: TreeOk(Move(d, x, t, junk), r)) <==> !Above(d, rank, x, t) && !Above(d, rank, t, x)
  {
    hide TreeOk, Above, Move;
    assert d[x].parent in d && d[t].parent in d by { ParentsIn(d, rank, x); ParentsIn(d, rank, t); }
    var e := Move(d, x, t, junk);
    if !Above(d, rank, x, t) && !Above(d, rank, t, x) {
      var n := TreeBounded(d, rank);
      MoveTree(d, rank, n, x, t, junk);
    } else {
      MoveParents(d, x, t, junk, x);
      forall z <- d ensures e[z].parent == NewParent(d, x, t, z) {
        MoveParents(d, x, t, junk, z);
      }
      forall r ensures !TreeOk(e, r) {
        if Above(d, rank, x, t) {
          ParentAbove(d, rank, x, t);
          NoTree(d, rank, e, r, x, t, d[t].parent);
        } else {
          ParentAbove(d, rank, t, x);
          NoTree(d, rank, e, r, t, x, d[x].parent);
        }
      }
    }
  }

  lemma ParentsIn(d: map<Id, Dentry>, rank: map<Id, nat>, x: Id)
    requires TreeOk(d, rank) && x in d
    ensures d[x].parent in d
  {
    assert NodeOk(d, rank, x);
  }

  /** For one: "/a" moved over "/a/b" is its own parent afterwards. */
  lemma CycleExample()
    ensures var d, rank := CycleTree(), map[0 := 0, 1 := 1, 2 := 2];
      TreeOk(d, rank) && Move(d, 1, 2, "b")[1].parent == 1 && forall r :: !TreeOk(Move(d, 1, 2, "b"), r)
  {
    var d, rank := CycleTree(), map[0 := 0, 1 := 1, 2 := 2];
    assert NodeOk(d, rank, 0) && NodeOk(d, rank, 1) && NodeOk(d, rank, 2);
    assert TreeOk(d, rank);
    assert Above(d, rank, 1, 2) by { AboveSelf(d, rank, 1); }
    MoveIsTree(d, rank, 1, 2, "b");
    MoveParents(d, 1, 2, "b", 1);
  }

  function CycleTree(): map<Id, Dentry> {
    map[0 := Dentry(2, 0, [1], false, false, None, 0, "/", 0, Some(0), false, false),
        1 := Dentry(2, 0, [2], false, true, Some(1), 1, "a", 0, Some(1), false, false),
        2 := Dentry(1, 1, [], false, true, Some(2), 2, "b", 0, None, false, false)]
  }

  /** Two files of a root; the second was unhashed and renamed since, so that its d_bucket is out of date. */
  function StaleExample(): map<Id, Dentry> {
    map[0 := Dentry(3, 0, [1, 2], false, false, None, 0, "/", 0, Some(0), false, false),
        1 := Dentry(1, 0, [], false, true, Some(1), 1, "a", 0, Some(1), false, false),
        2 := Dentry(1, 0, [], false, false, Some(2), 3, "b", 0, None, false, false)]
  }

  lemma StaleBucketExample()
    ensures var d, rank := StaleExample(), map[0 := 0, 1 := 1, 2 := 1];
      && MayMove(d, rank, 1, 2) && TableOk(d, map[Hashed(1) := [1]]) && BucketsOk(d, (p, h) => h)
      && !BucketsOk(Move(d, 1, 2, "a"), (p, h) => h)
  {
    var d, rank, hashOf := StaleExample(), map[0 := 0, 1 := 1, 2 := 1], (p: Id, h: nat) => h;
    forall x | x in d ensures NodeOk(d, rank, x) && BucketAt(d, hashOf, x) {
      assert d[0].subdirs[0] == 1 && d[0].subdirs[1] == 2;
    }
    var table: map<Chain, seq<Id>> := map[Hashed(1) := [1]];
    forall x | x in d ensures HashAt(d, table, x) {
      assert table[Hashed(1)][0] == 1;
    }
    forall b ensures ChainOk(d, table, b) {}
    MoveBuckets(d, rank, hashOf, 1, 2, "a");
  }
}
