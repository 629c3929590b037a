/**
  The dentry cache: reference counts with their upward cascade, the list of
  unused dentries with its lazy removal, and the shrinkers.
*/
module Dcache {
  import opened Common
  import opened DcacheTree
  import opened DcacheInv
  import opened DcacheGrow
  import opened DcacheMove

  class Cache {
    /** d_hash */
    const hashOf: (Id, nat) -> nat

    /** The file system's d_delete: whether to drop a dentry that nobody uses; false where there is none. */
    const deletes: Dentry -> bool

    var dentry: map<Id, Dentry>          // the live dentries
    var unused: seq<Id>                  // dentry_unused
    var table: map<Chain, seq<Id>>       // dentry_hashtable, and s_anon of every superblock
    var nrUnused: int
    var nrDentry: int
    ghost var held: map<Id, int>         // references from outside the cache
    ghost var rank: map<Id, nat>

    ghost predicate ValidBut(but: set<Id>)
      reads this
    {
      && TreeOk(dentry, rank)
      && CountOk(dentry, held)
      && ListOk(dentry, unused, nrUnused) && ZerosListed(dentry, unused, but)
      && TableOk(dentry, table) && BucketsOk(dentry, hashOf)
      && nrDentry == |dentry|
    }

    ghost predicate Valid()
      reads this
    {
      ValidBut({})
    }

    constructor (hash: (Id, nat) -> nat, deletes: Dentry -> bool)
      ensures Valid() && dentry == map[] && hashOf == hash && this.deletes == deletes
    {
      hashOf, this.deletes := hash, deletes;
      dentry, unused, table, nrUnused, nrDentry := map[], [], map[], 0, 0;
      held, rank := map[], map[];
      new;
      forall b ensures ChainOk(dentry, table, b) {}
    }

    /** Changes a reference count; the caller gains or gives up that many references. */
    method AddCount(x: Id, delta: int, ghost but: set<Id>)
      requires ValidBut(but) && x in dentry && x in held && held[x] + delta >= 0
      modifies this`dentry, this`held
      ensures dentry == old(dentry)[x := old(dentry)[x].(count := old(dentry)[x].count + delta)]
      ensures held == old(held)[x := old(held)[x] + delta]
      ensures ValidBut(but + {x})
      ensures dentry[x].count != 0 ==> ValidBut(but)
    {
      hide TreeOk, CountOk, ListOk, TableOk, BucketsOk;
      ghost var e := dentry[x].(count := dentry[x].count + delta);
      TouchTree(dentry, rank, x, e);
      TouchCount(dentry, held, x, e, delta);
      TouchTable(dentry, table, hashOf, x, e);
      TouchList(dentry, unused, nrUnused, x, e);
      dentry := dentry[x := dentry[x].(count := dentry[x].count + delta)];
      held := held[x := held[x] + delta];
    }

    // ------------------------------------------------------------------
    // Growing
    // ------------------------------------------------------------------

    /** d_alloc with a parent; y is the storage kmem_cache_alloc returned, None when there is none. */
    method Alloc(parent: Id, name: string, hash: nat, y: Option<Id>) returns (r: Option<Id>)
      requires Valid() && parent in dentry && dentry[parent].count > 0
      requires y.Some? ==> y.value !in dentry
      modifies this`dentry, this`nrDentry, this`held, this`rank
      ensures Valid() && r == y
      ensures r.None? ==> dentry == old(dentry) && held == old(held)
      ensures r.Some? ==>
        && dentry == AddLeaf(old(dentry), r.value, NewDentry(parent, name, hash, old(dentry)[parent].sb))
        && held == old(held)[r.value := 1]
    {
      r := y;
      if y.Some? {
        Add(y.value, NewDentry(parent, name, hash, dentry[parent].sb));
      }
    }

    /** d_alloc_root */
    method AllocRoot(sb: nat, inode: Option<nat>, y: Option<Id>) returns (r: Option<Id>)
      requires Valid() && (y.Some? ==> y.value !in dentry)
      modifies this`dentry, this`nrDentry, this`held, this`rank
      ensures Valid() && r == (if inode.None? then None else y)
      ensures r.None? ==> dentry == old(dentry) && held == old(held)
      ensures r.Some? ==>
        && dentry == old(dentry)[r.value := NewDentry(r.value, "/", 0, sb).(inode := inode)]
        && held == old(held)[r.value := 1]
    {
      r := None;
      if inode.Some? && y.Some? {
        r := y;
        Add(y.value, NewDentry(y.value, "/", 0, sb).(inode := inode));
      }
    }

    method Add(y: Id, e: Dentry)
      requires Valid() && y !in dentry && (e.parent == y || e.parent in dentry)
      requires e.count == 1 && e.subdirs == [] && !e.hashed
      modifies this`dentry, this`nrDentry, this`held, this`rank
      ensures Valid() && dentry == AddLeaf(old(dentry), y, e) && held == old(held)[y := 1]
    {
      hide TreeOk, CountOk, ListOk, ZerosListed, TableOk, BucketsOk, AddLeaf, LeafRank;
      AddLeafTree(dentry, rank, y, e);
      AddLeafCount(dentry, held, y, e);
      AddLeafTable(dentry, table, hashOf, y, e);
      AddLeafList(dentry, held, unused, nrUnused, y, e);
      dentry := AddLeaf(dentry, y, e);
      nrDentry := nrDentry + 1;
      held := held[y := 1];
      rank := LeafRank(rank, y, e.parent);
    }

    /** d_rehash */
    method Rehash(x: Id)
      requires Valid() && x in dentry && !dentry[x].hashed
      modifies this`dentry, this`table
      ensures Valid() && dentry == old(dentry)[x := Rehashed(old(dentry)[x], hashOf)]
    {
      HashAs(x, Rehashed(dentry[x], hashOf));
    }

    /** The end of d_alloc_anon: a new root goes on its superblock's list of anonymous dentries. */
    method AttachAnon(sb: nat, inode: nat, y: Id)
      requires Valid() && y !in dentry
      modifies this`dentry, this`nrDentry, this`held, this`rank, this`table
      ensures Valid() && dentry == old(dentry)[y := Anonymous(y, sb, inode)] && held == old(held)[y := 1]
      ensures ChainOf(table, Anon(sb)) == [y] + ChainOf(old(table), Anon(sb))
    {
      Add(y, NewDentry(y, "", 0, sb).(inode := Some(inode), disconnected := true));
      HashAs(y, dentry[y].(hashed := true));
    }

    method HashAs(x: Id, e: Dentry)
      requires Valid() && x in dentry && !dentry[x].hashed
      requires e == dentry[x].(hashed := true, bucket := e.bucket)
      requires e.bucket.Some? || e.parent != x ==> e.bucket == Some(hashOf(e.parent, e.hash))
      modifies this`dentry, this`table
      ensures Valid() && dentry == old(dentry)[x := e] && table == AddTable(old(table), Place(e), x)
    {
      hide TreeOk, CountOk, ListOk, TableOk, BucketsOk;
      TouchTree(dentry, rank, x, e);
      CountHeld(dentry, held, x);
      TouchCount(dentry, held, x, e, 0);
      TouchList(dentry, unused, nrUnused, x, e);
      AddKeepsTable(dentry, table, x, e);
      RehashBuckets(dentry, hashOf, x, e);
      table := AddTable(table, Place(e), x);
      dentry := dentry[x := e];
      assert held[x := held[x] + 0] == held;
    }

    // ------------------------------------------------------------------
    // Finding
    // ------------------------------------------------------------------

    /** The search of __d_lookup: along the chain of the parent and hash. */
    method Search(same: (string, string) -> bool, parent: Id, hash: nat, name: string) returns (found: Option<Id>)
      requires TableOk(dentry, table)
      ensures found.Some? <==>
        exists y :: y in ChainOf(table, Hashed(hashOf(parent, hash))) && Named(dentry, same, parent, hash, name, y)
      ensures found.Some? ==> Named(dentry, same, parent, hash, name, found.value)
    {
      hide TableOk;
      var head := hashOf(parent, hash);
      var chain := ChainOf(table, Hashed(head));
      ChainMembers(dentry, table, head);
      found := None;
      var i: nat := 0;
      while i < |chain|
        invariant i <= |chain|
        invariant forall j :: 0 <= j < i ==> !Named(dentry, same, parent, hash, name, chain[j])
      {
        var y := chain[i];
        if dentry[y].hash == hash && dentry[y].parent == parent {
          if dentry[y].bucket != Some(head) {
            break;
          }
          if same(dentry[y].name, name) {
            if dentry[y].hashed {
              assert y in chain && Named(dentry, same, parent, hash, name, y);
              found := Some(y);
            }
            return;
          }
        }
        i := i + 1;
      }
    }

    /** __d_lookup: a reference to the hashed child of that name, if and only if there is one. */
    method Lookup(same: (string, string) -> bool, parent: Id, hash: nat, name: string) returns (found: Option<Id>)
      requires Valid()
      modifies this`dentry, this`held
      ensures Valid()
      ensures found.Some? <==> exists y :: Named(old(dentry), same, parent, hash, name, y)
      ensures found.None? ==> dentry == old(dentry) && held == old(held)
      ensures found.Some? ==>
        && Named(old(dentry), same, parent, hash, name, found.value) && found.value in old(held)
        && dentry == old(dentry)[found.value :=
             old(dentry)[found.value].(count := old(dentry)[found.value].count + 1)]
        && held == old(held)[found.value := old(held)[found.value] + 1]
    {
      hide TreeOk, CountOk, ListOk, ZerosListed, TableOk, BucketsOk;
      NamedOnChain(dentry, table, hashOf, same, parent, hash, name);
      found := Search(same, parent, hash, name);
      if found.Some? {
        CountHeld(dentry, held, found.value);
        AddCount(found.value, 1, {});
      }
    }

    /** dget_locked: a used dentry is taken off dentry_unused at once. */
    method DgetLocked(x: Id)
      requires Valid() && x in dentry
      modifies this`dentry, this`held, this`unused, this`nrUnused
      ensures Valid() && x in old(held) && x !in unused && unused == Minus(old(unused), {x})
      ensures dentry == old(dentry)[x := old(dentry)[x].(count := old(dentry)[x].count + 1)]
      ensures held == old(held)[x := old(held)[x] + 1]
    {
      hide TreeOk, CountOk, ListOk, ZerosListed, TableOk, BucketsOk, Minus;
      CountHeld(dentry, held, x);
      AddCount(x, 1, {});
      UnlistUsed(dentry, unused, nrUnused, x);
      if x in unused {
        nrUnused := nrUnused - 1;
        unused := Minus(unused, {x});
      }
    }

    // ------------------------------------------------------------------
    // Renaming
    // ------------------------------------------------------------------

    /** Valid(), but for the buckets. */
    ghost predicate Sound()
      reads this
    {
      && TreeOk(dentry, rank)
      && CountOk(dentry, held)
      && ListOk(dentry, unused, nrUnused) && ZerosListed(dentry, unused, {})
      && TableOk(dentry, table)
      && nrDentry == |dentry|
    }

    /** The loop of d_find_alias over i_dentry: a hashed alias, a disconnected one only if there is no other. */
    method ChooseAlias(aliases: seq<Id>) returns (r: Option<Id>)
      requires forall a <- aliases :: a in dentry
      ensures r.Some? <==> exists a :: a in aliases && a in dentry && dentry[a].hashed
      ensures r.Some? ==>
        && r.value in aliases && r.value in dentry && dentry[r.value].hashed
        && (dentry[r.value].disconnected ==>
              forall a <- aliases :: a in dentry && dentry[a].hashed ==> dentry[a].disconnected)
    {
      r := None;
      var i: nat := 0;
      while i < |aliases|
        invariant i <= |aliases|
        invariant r.None? ==> forall j :: 0 <= j < i ==> !dentry[aliases[j]].hashed
        invariant r.Some? ==> r.value in aliases && dentry[r.value].hashed && dentry[r.value].disconnected
        invariant forall j :: 0 <= j < i && dentry[aliases[j]].hashed ==> dentry[aliases[j]].disconnected
      {
        var alias := aliases[i];
        if dentry[alias].hashed {
          if dentry[alias].disconnected {
            r := Some(alias);
          } else {
            return Some(alias);
          }
        }
        i := i + 1;
      }
    }

    /**
      d_alloc_anon: a hashed alias of the inode if there is one; for a
      directory with only unhashed aliases the first of these, and the storage
      y is given back; otherwise a new anonymous root in y, if there is memory.
    */
    method AllocAnon(sb: nat, inode: nat, isDir: bool, aliases: seq<Id>, y: Option<Id>) returns (r: Option<Id>)
      requires Valid() && (y.Some? ==> y.value !in dentry)
      requires forall x :: x in aliases <==> x in dentry && dentry[x].inode == Some(inode)
      modifies this`dentry, this`nrDentry, this`held, this`rank, this`table, this`unused, this`nrUnused
      ensures Valid()
      ensures r.Some? && r.value in old(dentry) ==>
        && r.value in aliases && r.value in old(held) && unused == Minus(old(unused), {r.value})
        && dentry == old(dentry)[r.value := old(dentry)[r.value].(count := old(dentry)[r.value].count + 1)]
        && held == old(held)[r.value := old(held)[r.value] + 1]
        && (old(dentry)[r.value].hashed && old(dentry)[r.value].disconnected ==>
              forall a <- aliases :: old(dentry)[a].hashed ==> old(dentry)[a].disconnected)
        && (old(dentry)[r.value].hashed ||
              (isDir && y.Some? && r.value == aliases[0] && forall a <- aliases :: !old(dentry)[a].hashed))
      ensures r.Some? && r.value !in old(dentry) ==>
        && r == y && (if isDir then aliases == [] else forall a <- aliases :: !old(dentry)[a].hashed)
        && dentry == old(dentry)[r.value := Anonymous(r.value, sb, inode)]
        && held == old(held)[r.value := 1] && unused == old(unused)
      ensures r.None? ==>
        && y.None? && (forall a <- aliases :: !old(dentry)[a].hashed)
        && dentry == old(dentry) && held == old(held) && unused == old(unused)
    {
      hide ValidBut, Minus;
      r := ChooseAlias(aliases);
      if r.Some? {
        DgetLocked(r.value);
        return;
      }
      if y.None? {
        return None;
      }
      if isDir && aliases != [] {
        r := Some(aliases[0]);
        DgetLocked(aliases[0]);
      } else {
        AttachAnon(sb, inode, y.value);
        r := y;
      }
    }

    /**
      d_move. The hash queue x goes on is the target's, whose d_bucket must not
      be NULL. The cache is valid again exactly if the target's d_bucket was up
      to date.
    */
    method Rename(x: Id, t: Id, junk: string)
      requires Valid() && MayMove(dentry, rank, x, t)
      requires Rechain(dentry, x, t) ==> dentry[t].bucket.Some?
      modifies this`dentry, this`table, this`rank
      ensures Sound() && dentry.Keys == old(dentry).Keys
      ensures forall y <- dentry :: dentry[y] == Moved(old(dentry), x, t, junk, y)
      ensures Valid() <==> Settled(old(dentry)[t], hashOf)
    {
      hide TreeOk, CountOk, ListOk, ZerosListed, TableOk, BucketsOk, Moved, Above, MovedRank, Relink, MoveTable,
           Settled, Bounded;
      ghost var n := RankBound();
      ghost var d, r := dentry, rank;
      MoveKeeps(dentry, rank, held, n, x, t, junk);
      MoveKeepsList(dentry, rank, unused, nrUnused, x, t, junk);
      MoveKeepsTable(dentry, rank, table, x, t, junk);
      MoveBuckets(dentry, rank, hashOf, x, t, junk);
      table := MoveTable(dentry, table, x, t);
      dentry := Requeue(dentry, x, t);
      dentry := Relink(dentry, x, t, junk);
      rank := MovedRank(d, r, n, x, t);
    }

    /** The alias x takes the place of t, which goes into its bucket for that. */
    method Splice(x: Id, t: Id, junk: string)
      requires Valid() && MayMove(dentry, rank, x, t) && !dentry[t].hashed
      modifies this`dentry, this`table, this`rank, this`held, this`unused, this`nrUnused
      ensures Valid() && dentry.Keys == old(dentry).Keys && x in dentry && t in dentry
      ensures dentry[x].hashed && dentry[x].bucket.Some? && !dentry[t].hashed
      ensures dentry[x].parent == old(dentry)[t].parent && dentry[x].count == old(dentry)[x].count + 1
      ensures dentry[x].hash == old(dentry)[t].hash && dentry[x].name == old(dentry)[t].name
    {
      hide TreeOk, CountOk, ListOk, ZerosListed, TableOk, BucketsOk, Above, NewSubdirs, Minus;
      DgetLocked(x);
      Rehash(t);
      SameMove(old(dentry), dentry, old(rank), x, t);
      Rename(x, t, junk);
    }

    /**
      d_splice_alias.  A directory that has an alias already, neither above nor
      below the negative dentry t, gets it moved to the place of t; otherwise t
      itself takes the inode.
    */
    method SpliceAlias(alias: Option<Id>, inode: Option<nat>, isDir: bool, t: Id, junk: string) returns (r: Option<Id>)
      requires Valid() && t in dentry && !dentry[t].hashed && dentry[t].parent != t
      requires inode.Some? && isDir && alias.Some? ==> MayMove(dentry, rank, alias.value, t)
      modifies this`dentry, this`table, this`rank, this`held, this`unused, this`nrUnused
      ensures Valid() && dentry.Keys == old(dentry).Keys && r == (if inode.Some? && isDir then alias else None)
      ensures var x := if r.Some? then r.value else t;
        && x in dentry && dentry[x].hashed && dentry[x].bucket.Some?
        && dentry[x].parent == old(dentry)[t].parent
        && dentry[x].hash == old(dentry)[t].hash && dentry[x].name == old(dentry)[t].name
      ensures r.None? ==>
        && dentry == old(dentry)[t := Rehashed(old(dentry)[t].(inode := inode), hashOf)]
        && held == old(held) && unused == old(unused)
      ensures r.Some? ==>
        && r.value in old(dentry) && t in dentry && !dentry[t].hashed
        && dentry[r.value].count == old(dentry)[r.value].count + 1
    {
      hide TreeOk, CountOk, ListOk, ZerosListed, TableOk, BucketsOk, Above, NewSubdirs, Minus;
      r := None;
      if inode.Some? && isDir && alias.Some? {
        Splice(alias.value, t, junk);
        r := alias;
      } else {
        SetInode(t, inode);
        Rehash(t);
      }
    }

    /** d_instantiate */
    method SetInode(x: Id, inode: Option<nat>)
      requires Valid() && x in dentry
      modifies this`dentry
      ensures Valid() && dentry == old(dentry)[x := old(dentry)[x].(inode := inode)]
    {
      hide TreeOk, CountOk, ListOk, TableOk, BucketsOk;
      ghost var e := dentry[x].(inode := inode);
      TouchTree(dentry, rank, x, e);
      CountHeld(dentry, held, x);
      TouchCount(dentry, held, x, e, 0);
      TouchList(dentry, unused, nrUnused, x, e);
      TouchTable(dentry, table, hashOf, x, e);
      dentry := dentry[x := dentry[x].(inode := inode)];
      assert held[x := held[x] + 0] == held;
    }

    /** __d_drop */
    method Drop(x: Id, ghost but: set<Id>)
      requires ValidBut(but) && x in dentry
      modifies this`dentry, this`table
      ensures dentry == old(dentry)[x := old(dentry)[x].(hashed := false)]
      ensures table == DropTable(old(dentry), old(table), x)
      ensures ValidBut(but)
    {
      hide TreeOk, CountOk, ListOk, TableOk, BucketsOk;
      ghost var e := dentry[x].(hashed := false);
      TouchTree(dentry, rank, x, e);
      CountHeld(dentry, held, x);
      TouchCount(dentry, held, x, e, 0);
      TouchList(dentry, unused, nrUnused, x, e);
      DropKeepsTable(dentry, table, x);
      DropKeepsBuckets(dentry, hashOf, x);
      table := DropTable(dentry, table, x);
      dentry := dentry[x := dentry[x].(hashed := false)];
      assert held[x := held[x] + 0] == held;
    }

    /** list_del(d_lru), d_child and the free itself; the parent's reference is left to the caller. */
    method Kill(x: Id) returns (parent: Id)
      requires ValidBut({x}) && x in dentry && dentry[x].count == 0 && !dentry[x].hashed
      modifies this`dentry, this`unused, this`nrUnused, this`nrDentry, this`held
      ensures parent == old(dentry)[x].parent && parent in old(dentry) && parent in old(held)
      ensures old(held)[parent] >= 0 && old(dentry)[x].subdirs == []
      ensures dentry == RemoveLeaf(old(dentry), x) && dentry.Keys == old(dentry).Keys - {x}
      ensures unused == Minus(old(unused), {x})
      ensures held == HeldAfter(old(held), x, parent)
      ensures parent != x ==> parent in dentry && parent in held && held[parent] >= 1
      ensures Valid()
    {
      hide TreeOk, CountOk, ListOk, ZerosListed, TableOk, BucketsOk, Minus, RemoveLeaf;
      parent := dentry[x].parent;
      KillKeeps(dentry, rank, held, x);
      KillKeepsLists(dentry, unused, nrUnused, table, hashOf, x);
      if x in unused {
        unused := Minus(unused, {x});
        nrUnused := nrUnused - 1;
      }
      dentry := RemoveLeaf(dentry, x);
      nrDentry := nrDentry - 1;
      held := HeldAfter(held, x, parent);
    }

    /** Puts an unused dentry at the head of dentry_unused, unless it is there already. */
    method ListUnused(x: Id)
      requires ValidBut({x}) && x in dentry
      modifies this`dentry, this`unused, this`nrUnused
      ensures Valid()
      ensures x in old(unused) ==> dentry == old(dentry) && unused == old(unused)
      ensures x !in old(unused) ==>
        dentry == old(dentry)[x := old(dentry)[x].(referenced := true)] && unused == [x] + old(unused)
    {
      hide TreeOk, CountOk, TableOk, BucketsOk;
      if x !in unused {
        SetReferenced(x, true, {x});
        NoDupConcat([x], unused);
        unused := [x] + unused;
        nrUnused := nrUnused + 1;
      }
    }

    lemma CountPositive(x: Id)
      requires Valid() && x in dentry && x in held && held[x] >= 1
      ensures dentry[x].count >= 1 && (dentry[x].count == 1 ==> held[x] == 1 && dentry[x].subdirs == [])
    {
      CountHeld(dentry, held, x);
    }

    lemma AllHeld(but: set<Id>)
      requires ValidBut(but)
      ensures forall y <- dentry :: y in held && (dentry[y].count == 0 ==> held[y] == 0)
      ensures NoDup(unused) && forall y <- unused :: y in dentry
    {
      forall y <- dentry ensures y in held && (dentry[y].count == 0 ==> held[y] == 0) {
        CountHeld(dentry, held, y);
      }
    }

    method SetReferenced(x: Id, on: bool, ghost but: set<Id>)
      requires ValidBut(but) && x in dentry
      modifies this`dentry
      ensures ValidBut(but)
      ensures dentry == old(dentry)[x := old(dentry)[x].(referenced := on)]
    {
      hide TreeOk, CountOk, ListOk, TableOk, BucketsOk;
      ghost var e := dentry[x].(referenced := on);
      TouchTree(dentry, rank, x, e);
      CountHeld(dentry, held, x);
      TouchCount(dentry, held, x, e, 0);
      TouchList(dentry, unused, nrUnused, x, e);
      TouchTable(dentry, table, hashOf, x, e);
      dentry := dentry[x := dentry[x].(referenced := on)];
      assert held[x := held[x] + 0] == held;
    }

    lemma Childless(x: Id)
      requires ValidBut({x}) && x in dentry && dentry[x].count == 0
      ensures dentry[x].subdirs == []
    {
      NoChildren(dentry, rank, held, x);
    }

    /** Kills x, which is unhashed and no longer used. */
    method KillClimbing(x: Id, ghost d0: map<Id, Dentry>, ghost u0: seq<Id>, ghost h0: map<Id, int>,
                        ghost d: map<Id, Dentry>, ghost h: map<Id, int>, ghost first: Id, ghost killed: set<Id>)
      returns (next: Option<Id>)
      requires ValidBut({x}) && x in dentry && dentry[x].count == 0 && !dentry[x].hashed
      requires Climbing(d0, u0, h0, d, unused, h, first, killed, x)
      requires x in d && x in h && d[x].count == 1 && h[x] == 1 && dentry[x].parent == d[x].parent
      requires dentry == d[x := dentry[x]] && held == h[x := h[x] - 1]
      modifies this`dentry, this`unused, this`nrUnused, this`nrDentry, this`held
      ensures Valid() && |dentry| < |old(dentry)|
      ensures next.None? ==> Cascade(d0, u0, h0, dentry, unused, held, first, killed + {x}, None)
      ensures next.Some? ==>
        && next.value in dentry && next.value in held && held[next.value] >= 1
        && Climbing(d0, u0, h0, dentry, unused, held, first, killed + {x}, next.value)
    {
      hide TreeOk, CountOk, ListOk, ZerosListed, TableOk, BucketsOk, Minus, ValidBut, Climbing, Cascade,
           RemoveLeaf, HeldAfter;
      ghost var e, u := dentry[x], unused;
      var parent := Kill(x);
      ClimbKills(d0, u0, h0, d, u, h, e, first, killed, x);
      next := if parent == x then None else Some(parent);
    }

    /** One turn of dput's loop: gives up a reference to x and says where the loop goes on. */
    method DputStep(x: Id, ghost d0: map<Id, Dentry>, ghost u0: seq<Id>, ghost h0: map<Id, int>,
                    ghost first: Id, ghost killed: set<Id>)
      returns (next: Option<Id>, ghost dead: bool)
      requires Valid() && x in dentry && x in held && held[x] >= 1
      requires Climbing(d0, u0, h0, dentry, unused, held, first, killed, x)
      modifies this`dentry, this`unused, this`table, this`nrUnused, this`nrDentry, this`held
      ensures Valid()
      ensures next.Some? ==> dead && |dentry| < |old(dentry)|
      ensures x in d0 && (dead ==> Goes(deletes, d0[x]))
      ensures !dead ==> x in dentry && (dentry[x].count == 0 ==> !Goes(deletes, d0[x]))
      ensures next.None? ==>
        if dead then Cascade(d0, u0, h0, dentry, unused, held, first, killed + {x}, None)
        else Cascade(d0, u0, h0, dentry, unused, held, first, killed, Some(x))
      ensures next.Some? ==>
        && next.value in dentry && next.value in held && held[next.value] >= 1
        && Climbing(d0, u0, h0, dentry, unused, held, first, killed + {x}, next.value)
    {
      hide TreeOk, CountOk, ListOk, ZerosListed, TableOk, BucketsOk, Minus, ValidBut, Climbing, Cascade;
      ghost var d, u, h := dentry, unused, held;
      next, dead := None, false;
      CountPositive(x);
      ClimbSame(d0, u0, h0, d, u, h, first, killed, x);
      AddCount(x, -1, {});
      if dentry[x].count != 0 {
        ClimbStops(d0, u0, h0, d, u, h, dentry, unused, held, first, killed, x);
        return;
      }
      assert {} + {x} == {x};
      Childless(x);
      assert dentry[x] == Idle(d0[x]);
      if deletes(dentry[x]) {
        Drop(x, {x});
      }
      assert dentry == d[x := dentry[x]];
      if dentry[x].hashed {
        ListUnused(x);
        ClimbStops(d0, u0, h0, d, u, h, dentry, unused, held, first, killed, x);
      } else {
        dead := true;
        next := KillClimbing(x, d0, u0, h0, d, h, first, killed);
      }
    }

    /**
      dput: gives up one reference to `first`.  `killed` are the dentries freed
      on the way up and `stop` the one where the cascade ends.
    */
    method Dput(first: Id) returns (ghost killed: set<Id>, ghost stop: Option<Id>)
      requires Valid() && first in dentry && first in held && held[first] >= 1
      modifies this`dentry, this`unused, this`table, this`nrUnused, this`nrDentry, this`held
      ensures Valid()
      ensures Cascade(old(dentry), old(unused), old(held), dentry, unused, held, first, killed, stop)
      ensures AsAsked(deletes, old(dentry), dentry, killed, stop)
    {
      hide ValidBut, Climbing, Cascade, Goes;
      var x := first;
      killed, stop := {}, None;
      AllHeld({});
      ClimbBegins(dentry, unused, held, first);
      while true
        invariant Valid() && x in dentry && x in held && held[x] >= 1 && stop.None?
        invariant Climbing(old(dentry), old(unused), old(held), dentry, unused, held, first, killed, x)
        invariant forall k <- killed :: k in old(dentry) && Goes(deletes, old(dentry)[k])
        decreases |dentry|
      {
        var next;
        ghost var dead;
        next, dead := DputStep(x, old(dentry), old(unused), old(held), first, killed);
        if dead {
          killed := killed + {x};
        } else {
          stop := Some(x);
        }
        if next.None? {
          return;
        }
        x := next.value;
      }
    }

    /** prune_one_dentry: kills x, which nobody uses and which is off the list, and puts its parent. */
    method PruneOne(x: Id) returns (ghost killed: set<Id>, ghost stop: Option<Id>)
      requires ValidBut({x}) && x in dentry && dentry[x].count == 0 && x !in unused
      modifies this`dentry, this`unused, this`table, this`nrUnused, this`nrDentry, this`held
      ensures Valid()
      ensures Pruned(old(dentry), old(unused), old(held), dentry, unused, held, x, killed, stop)
      ensures Asked(deletes, old(dentry), killed, x)
    {
      hide TreeOk, CountOk, ListOk, ZerosListed, TableOk, BucketsOk, Minus, ValidBut, Cascade, RemoveLeaf, Pruned, Goes;
      ghost var d, u, h := dentry, unused, held;
      killed, stop := {}, None;
      AllHeld({x});
      Drop(x, {x});
      ghost var dropped := dentry;
      var parent := Kill(x);
      ghost var d1, u1, h1 := dentry, unused, held;
      if parent != x {
        killed, stop := Dput(parent);
      }
      PruneIs(d, u, h, dropped, d1, h1, dentry, unused, held, x, parent, killed, stop);
      AskedBefore(deletes, d, dropped, d1, x, killed);
      killed := killed + {x};
    }

    /** Takes the least recently used dentry off the list. */
    method PopLast() returns (x: Id)
      requires Valid() && unused != []
      modifies this`unused, this`nrUnused
      ensures old(unused) == unused + [x] && x in dentry && x !in unused
      ensures ValidBut({x})
      ensures dentry[x].count != 0 ==> Valid()
    {
      hide TreeOk, CountOk, TableOk, BucketsOk;
      x := unused[|unused| - 1];
      unused := unused[..|unused| - 1];
      nrUnused := nrUnused - 1;
      assert old(unused) == unused + [x];
    }

    /** One turn of prune_dcache's loop, the list not being empty. */
    method PruneStep() returns (x: Id, ghost killed: set<Id>, ghost stop: Option<Id>)
      requires Valid() && unused != []
      modifies this`dentry, this`unused, this`table, this`nrUnused, this`nrDentry, this`held
      ensures Valid() && x == old(unused)[|old(unused)| - 1] && x in old(dentry)
      ensures Handled(old(dentry), old(unused)[..|old(unused)| - 1], old(held), dentry, unused, held, x, killed, stop)
      ensures Asked(deletes, old(dentry), killed, x)
    {
      hide TreeOk, CountOk, ListOk, ZerosListed, TableOk, BucketsOk, Minus, Pruned, ValidBut, Goes;
      killed, stop := {}, None;
      x := PopLast();
      assert old(unused)[..|old(unused)| - 1] == unused;
      AllHeld({x});
      if dentry[x].count != 0 {
        // in use, and left on the list by a lookup
        return;
      }
      if dentry[x].referenced {
        SetReferenced(x, false, {x});
        Relist(x);
        return;
      }
      killed, stop := PruneOne(x);
    }

    /** list_add of a dentry that is off the list. */
    method Relist(x: Id)
      requires ValidBut({x}) && x in dentry && x !in unused
      modifies this`unused, this`nrUnused
      ensures Valid() && unused == [x] + old(unused)
    {
      hide TreeOk, CountOk, TableOk, BucketsOk;
      NoDupConcat([x], unused);
      unused := [x] + unused;
      nrUnused := nrUnused + 1;
    }

    /**
      prune_dcache: takes `count` dentries off the end of the list, or all there
      are; only these are freed, and what goes with them.  If the last `count`
      dentries of the list, `sel`, are all unused, exactly they are handled:
      each is freed or loses its reference mark.
    */
    method PruneDcache(count: nat, ghost sel: seq<Id>) returns (ghost popped: seq<Id>)
      requires Valid()
      requires sel == [] || (|sel| == count <= |unused| && sel == unused[|unused| - count..]
                             && forall z <- sel :: z in dentry && dentry[z].count == 0)
      modifies this`dentry, this`unused, this`table, this`nrUnused, this`nrDentry, this`held
      ensures Valid()
      ensures |popped| == count || (|popped| < count && unused == [])
      ensures Freed(deletes, old(dentry), old(held), dentry, held, Members(popped))
      ensures sel != [] ==> SelectedHandled(old(dentry), dentry, sel, 0) && Members(popped) <= Members(sel)
    {
      hide ValidBut, Handled, Freed, SelectedHandled, SelectedWaiting, Asked, Rooted;
      var k: nat := count;
      popped := [];
      AllHeld({});
      NobodyYet(dentry, held, unused, sel);
      FreedNothing(deletes, dentry, held, Members(popped));
      while k != 0
        invariant k <= count && Valid() && |popped| == count - k
        invariant Freed(deletes, old(dentry), old(held), dentry, held, Members(popped))
        invariant sel != [] ==> k <= |sel| && SelectedHandled(old(dentry), dentry, sel, k)
                                && SelectedWaiting(old(dentry), dentry, unused, sel, k)
                                && Members(popped) <= Members(sel)
        decreases k
      {
        WaitingListed(old(dentry), dentry, unused, sel, k);
        if unused == [] {
          break;
        }
        ghost var d, u, h := dentry, unused, held;
        AllHeld({});
        ghost var killed, stop;
        var x;
        x, killed, stop := PruneStep();
        TreeRooted();
        HandledFreed(deletes, d, u[..|u| - 1], h, dentry, unused, held, x, killed, stop);
        FreedTransitive(deletes, old(dentry), old(held), d, h, dentry, held,
                        Members(popped), {x}, Members(popped + [x]));
        if sel != [] {
          HandledSelected(old(dentry), d, u, h, dentry, unused, held, x, killed, stop, sel, k);
        }
        popped := popped + [x];
        k := k - 1;
      }
    }

    /** select_parent's treatment of one dentry: off the list, and to its end if nobody uses it. */
    method Select(x: Id) returns (found: bool)
      requires Valid() && x in dentry
      modifies this`unused, this`nrUnused
      ensures Valid() && found == (dentry[x].count == 0)
      ensures unused == Minus(old(unused), {x}) + (if found then [x] else [])
    {
      hide TreeOk, CountOk, TableOk, BucketsOk;
      MinusMembers(unused, {x});
      MinusNoDup(unused, {x});
      MinusOne(unused, x);
      if x in unused {
        nrUnused := nrUnused - 1;
        unused := Minus(unused, {x});
      } else {
        MinusNothing(unused, {x});
      }
      found := dentry[x].count == 0;
      if found {
        NoDupConcat(unused, [x]);
        unused := unused + [x];
        nrUnused := nrUnused + 1;
      }
    }

    /**
      select_parent.  The walk visits every strict descendant once, in preorder;
      those that nobody uses, `sel`, end up at the end of the list.
    */
    method SelectParent(parent: Id) returns (found: nat, ghost visited: seq<Id>, ghost sel: seq<Id>)
      requires Valid() && parent in dentry
      modifies this`unused, this`nrUnused
      ensures Valid() && TreeOk(dentry, rank) && found == |sel|
      ensures NoDup(visited)
      ensures forall y :: y in visited <==> y in dentry && y != parent && Above(dentry, rank, parent, y)
      ensures sel == ZerosOf(dentry, visited)
      ensures unused == Minus(old(unused), Members(visited)) + sel
    {
      hide TreeOk, Bounded, ValidBut, Above, Minus, Selected, Standing, ZerosOf, Members, NoDup, RankOf;
      ghost var n := RankBound();
      ghost var all := WalkBegins(dentry, rank, n, parent);
      ghost var rest := all;
      var at, i: nat := parent, 0;
      found, visited, sel := 0, [], [];
      SelectBegins(dentry, unused);
      while i < |dentry[at].subdirs| || at != parent
        invariant Valid() && at in dentry && i <= |dentry[at].subdirs|
        invariant Standing(dentry, rank, n, parent, at, i, rest) && visited + rest == all
        invariant Selected(dentry, old(unused), unused, visited, sel) && found == |sel|
        decreases |rest|, RankOf(rank, at)
      {
        if i < |dentry[at].subdirs| {
          WalkVisits(dentry, rank, n, parent, at, i, rest);
          var x := dentry[at].subdirs[i];
          i := i + 1;
          ghost var u := unused;
          var zero := Select(x);
          SelectStep(dentry, old(unused), u, unused, visited, sel, x, rest[1..], all);
          visited, rest := visited + [x], rest[1..];
          sel := sel + (if zero then [x] else []);
          if zero {
            found := found + 1;
          }
          if dentry[x].subdirs != [] {
            at, i := x, 0;
          }
        } else {
          WalkAscends(dentry, rank, n, parent, at, rest);
          i := IndexOf(dentry[dentry[at].parent].subdirs, at) + 1;
          at := dentry[at].parent;
        }
      }
      WalkEnds(dentry, rank, n, parent, rest);
      SelectEnds(dentry, old(unused), unused, visited, sel);
      assert visited == all;
    }

    /** shrink_dcache_parent: ends, and leaves no unused dentry below `parent`. */
    method ShrinkParent(parent: Id)
      requires Valid() && parent in dentry && parent in held && held[parent] >= 1
      modifies this`dentry, this`unused, this`table, this`nrUnused, this`nrDentry, this`held
      ensures Valid() && TreeOk(dentry, rank) && parent in dentry
      ensures forall y <- dentry :: y != parent && Above(dentry, rank, parent, y) ==> dentry[y].count != 0
      ensures Freed(deletes, old(dentry), old(held), dentry, held, Beneath(old(dentry), rank, parent))
      ensures old(dentry).Keys - dentry.Keys <= Beneath(old(dentry), rank, parent)
    {
      hide ValidBut, TreeOk, CountOk, TableOk, Bounded, Above, SelectedHandled, Minus, Freed, MarkedZeros,
           Members, NoDup, Beneath;
      AllHeld({});
      Parts();
      ghost var n0 := RankBound();
      ghost var may := Beneath(dentry, rank, parent);
      FreedNothing(deletes, dentry, held, may);
      while true
        invariant Valid() && parent in dentry && parent in held && held[parent] >= 1
        invariant Freed(deletes, old(dentry), old(held), dentry, held, may)
        decreases |dentry|, |MarkedZeros(dentry)|
      {
        var found;
        ghost var visited, sel;
        found, visited, sel := SelectParent(parent);
        ZerosMembers(dentry, visited);
        if found == 0 {
          AllBeneath(deletes, old(dentry), old(held), dentry, held, rank, n0, parent);
          return;
        }
        ghost var d, h := dentry, held;
        ghost var popped := PruneDcache(found, sel);
        ShrinkMakesProgress(d, dentry, sel);
        SelectedBeneath(deletes, old(dentry), old(held), d, h, rank, parent, visited, sel);
        FreedTransitive(deletes, old(dentry), old(held), d, h, dentry, held, may, Members(popped), may);
        StillHeld(deletes, d, h, dentry, held, Members(popped), parent);
      }
    }

    /** The pass of shrink_dcache_anon over a hash chain: its unused dentries go to the end of the list. */
    method SelectChain(b: Chain) returns (found: nat, ghost sel: seq<Id>)
      requires Valid()
      modifies this`unused, this`nrUnused
      ensures Valid() && found == |sel| && forall y <- ChainOf(table, b) :: y in dentry && dentry[y].hashed
      ensures sel == ZerosOf(dentry, ChainOf(table, b))
      ensures unused == Minus(old(unused), Members(ChainOf(table, b))) + sel
    {
      hide ValidBut, Minus, Selected, ZerosOf, Members, NoDup;
      var chain := ChainOf(table, b);
      ChainIs(b);
      found, sel := 0, [];
      var i: nat := 0;
      SelectBegins(dentry, unused);
      assert chain[..0] == [];
      while i < |chain|
        invariant i <= |chain| && Valid() && found == |sel|
        invariant Selected(dentry, old(unused), unused, chain[..i], sel)
      {
        var x := chain[i];
        ghost var u := unused;
        var zero := Select(x);
        assert chain[..i] + ([x] + chain[i + 1..]) == chain && chain[..i] + [x] == chain[..i + 1];
        SelectStep(dentry, old(unused), u, unused, chain[..i], sel, x, chain[i + 1..], chain);
        sel := sel + (if zero then [x] else []);
        if zero {
          found := found + 1;
        }
        i := i + 1;
      }
      assert chain[..i] == chain;
      SelectEnds(dentry, old(unused), unused, chain, sel);
    }

    lemma ChainIs(b: Chain)
      requires Valid()
      ensures NoDup(ChainOf(table, b)) && forall y <- ChainOf(table, b) :: y in dentry && dentry[y].hashed
    {
      assert ChainOk(dentry, table, b);
    }

    /** shrink_dcache_anon: ends, and leaves no unused anonymous dentry of that superblock. */
    method ShrinkAnon(sb: nat)
      requires Valid()
      modifies this`dentry, this`unused, this`table, this`nrUnused, this`nrDentry, this`held
      ensures Valid()
      ensures forall y <- ChainOf(table, Anon(sb)) :: y in dentry && dentry[y].count != 0
      ensures Freed(deletes, old(dentry), old(held), dentry, held, Members(old(ChainOf(table, Anon(sb)))))
    {
      hide ValidBut, TreeOk, CountOk, TableOk, SelectedHandled, Minus, Freed, MarkedZeros, Members, NoDup, ZerosOf;
      AllHeld({});
      Parts();
      ghost var may := Members(ChainOf(table, Anon(sb)));
      FreedNothing(deletes, dentry, held, may);
      while true
        invariant Valid() && Freed(deletes, old(dentry), old(held), dentry, held, may)
        decreases |dentry|, |MarkedZeros(dentry)|
      {
        var found;
        ghost var sel;
        found, sel := SelectChain(Anon(sb));
        ZerosMembers(dentry, ChainOf(table, Anon(sb)));
        if found == 0 {
          return;
        }
        ghost var d, h := dentry, held;
        Parts();
        AnonBefore(deletes, old(dentry), old(table), old(held), d, table, h, may, sb, sel);
        ghost var popped := PruneDcache(found, sel);
        ShrinkMakesProgress(d, dentry, sel);
        FreedTransitive(deletes, old(dentry), old(held), d, h, dentry, held, may, Members(popped), may);
      }
    }

    /** Drops x, which nobody uses, by taking and giving up a reference to it. */
    method PruneAlias(x: Id)
      requires Valid() && x in dentry && dentry[x].count == 0
      modifies this`dentry, this`unused, this`table, this`nrUnused, this`nrDentry, this`held
      ensures Valid() && x !in dentry && |dentry| < |old(dentry)|
      ensures Freed(deletes, old(dentry), old(held), dentry, held, {x})
    {
      hide ValidBut, Minus, Cascade, Freed, AsAsked;
      ghost var d, h := dentry, held;
      AllHeld({});
      DgetLocked(x);
      Drop(x, {});
      ghost var d1, u1, h1 := dentry, unused, held;
      ghost var killed, stop := Dput(x);
      TreeRooted();
      AliasGone(deletes, d, h, d1, u1, h1, dentry, unused, held, x, killed, stop);
      ProperSubsetSmaller(dentry.Keys, d.Keys, x);
    }

    /**
      d_prune_aliases, `aliases` being i_dentry.  With a fresh start after each
      that is dropped, it ends and leaves no unused alias of the inode.
    */
    method PruneAliases(inode: nat, aliases: seq<Id>)
      requires Valid() && forall y :: y in aliases <==> y in dentry && dentry[y].inode == Some(inode)
      modifies this`dentry, this`unused, this`table, this`nrUnused, this`nrDentry, this`held
      ensures Valid() && Freed(deletes, old(dentry), old(held), dentry, held, Members(aliases))
      ensures forall y <- dentry :: dentry[y].inode == Some(inode) ==> dentry[y].count != 0
    {
      hide ValidBut, Freed;
      AllHeld({});
      FreedNothing(deletes, dentry, held, Members(aliases));
      var list, i: nat := aliases, 0;
      while i < |list|
        invariant i <= |list| && Valid() && Freed(deletes, old(dentry), old(held), dentry, held, Members(aliases))
        invariant forall y <- list :: y in aliases
        invariant forall y :: y in list <==> y in dentry && dentry[y].inode == Some(inode)
        invariant forall k :: 0 <= k < i ==> list[k] in dentry && dentry[list[k]].count != 0
        decreases |dentry|, |list| - i
      {
        if dentry[list[i]].count == 0 {
          ghost var d, h, x := dentry, held, list[i];
          PruneAlias(list[i]);
          FreedTransitive(deletes, old(dentry), old(held), d, h, dentry, held, Members(aliases), {x}, Members(aliases));
          FreedKeys(deletes, d, h, dentry, held, {x});
          list, i := StillThere(list), 0;
        } else {
          i := i + 1;
        }
      }
    }

    /** i_dentry without the dentries that are gone. */
    function StillThere(q: seq<Id>): (r: seq<Id>)
      reads this`dentry
      ensures forall y :: y in r <==> y in q && y in dentry
    {
      if q == [] then [] else (if q[0] in dentry then [q[0]] else []) + StillThere(q[1..])
    }

    /** have_submounts: the same walk, looking for a mount point at or below `parent`. */
    method HaveSubmounts(parent: Id) returns (found: bool)
      requires Valid() && TreeOk(dentry, rank) && parent in dentry
      ensures found <==> exists y :: y in dentry && Above(dentry, rank, parent, y) && dentry[y].mounted
    {
      hide TreeOk, Bounded, ValidBut, Above, Standing, IndexOf;
      AboveSelf(dentry, rank, parent);
      if dentry[parent].mounted {
        return true;
      }
      ghost var n := RankBound();
      ghost var all := WalkBegins(dentry, rank, n, parent);
      found := SearchBelow(parent, n, all);
    }

    method SearchBelow(parent: Id, ghost n: nat, ghost all: seq<Id>) returns (found: bool)
      requires parent in dentry && Standing(dentry, rank, n, parent, parent, 0, all)
      ensures found <==> exists y :: y in all && y in dentry && dentry[y].mounted
    {
      hide Standing, IndexOf, RankOf, TreeOk, Above, NoDup, Bounded;
      ghost var visited, rest := [], all;
      var at, i: nat := parent, 0;
      while i < |dentry[at].subdirs| || at != parent
        invariant at in dentry && i <= |dentry[at].subdirs|
        invariant Standing(dentry, rank, n, parent, at, i, rest) && visited + rest == all
        invariant forall y <- visited :: y in dentry && !dentry[y].mounted
        decreases |rest|, RankOf(rank, at)
      {
        if i < |dentry[at].subdirs| {
          WalkVisits(dentry, rank, n, parent, at, i, rest);
          var x := dentry[at].subdirs[i];
          i := i + 1;
          if dentry[x].mounted {
            assert x in all;
            return true;
          }
          visited, rest := visited + [x], rest[1..];
          if dentry[x].subdirs != [] {
            at, i := x, 0;
          }
        } else {
          WalkAscends(dentry, rank, n, parent, at, rest);
          i := IndexOf(dentry[dentry[at].parent].subdirs, at) + 1;
          at := dentry[at].parent;
        }
      }
      WalkEnds(dentry, rank, n, parent, rest);
      assert visited == all;
      return false;
    }

    /** Takes the dentry at place j off the list. */
    method Unlist(j: nat) returns (x: Id)
      requires Valid() && j < |unused|
      modifies this`unused, this`nrUnused
      ensures x == old(unused)[j] && x in dentry && unused == old(unused)[..j] + old(unused)[j + 1..] && x !in unused
      ensures ValidBut({x}) && (dentry[x].count != 0 ==> Valid())
    {
      hide TreeOk, CountOk, TableOk, BucketsOk;
      x := unused[j];
      nrUnused := nrUnused - 1;
      unused := unused[..j] + unused[j + 1..];
    }

    /** Moves a dentry of the list to its head. */
    method ToFront(x: Id)
      requires Valid() && x in unused
      modifies this`unused
      ensures Valid() && unused == [x] + Minus(old(unused), {x}) && Members(unused) == Members(old(unused))
    {
      hide TreeOk, CountOk, TableOk, BucketsOk;
      MinusMembers(unused, {x});
      MinusNoDup(unused, {x});
      MinusOne(unused, x);
      NoDupConcat([x], Minus(unused, {x}));
      unused := [x] + Minus(unused, {x});
    }

    /** shrink_dcache_sb: ends, and leaves no unused dentry of that superblock. */
    method ShrinkSb(sb: nat)
      requires Valid()
      modifies this`dentry, this`unused, this`table, this`nrUnused, this`nrDentry, this`held
      ensures Valid()
      ensures forall y <- dentry :: dentry[y].sb == sb ==> dentry[y].count != 0
      ensures Freed(deletes, old(dentry), old(held), dentry, held, OfSuperblock(old(dentry), sb))
    {
      hide ValidBut, Minus, Pruned, Members, Freed, Asked;
      AllHeld({});
      ghost var may := OfSuperblock(dentry, sb);
      FreedNothing(deletes, dentry, held, may);
      // pass one: the dentries of the superblock go to the head of the list
      var q, i := unused, 0;
      while i < |q|
        invariant 0 <= i <= |q| && Valid() && Members(unused) == Members(q)
        invariant dentry == old(dentry) && held == old(held)
      {
        InMembers(q, unused, i);
        if dentry[q[i]].sb == sb {
          ToFront(q[i]);
        }
        i := i + 1;
      }
      // pass two: they are freed, with a fresh start after every one
      var j: nat := 0;
      while j < |unused|
        invariant j <= |unused| && Valid()
        invariant forall k :: 0 <= k < j ==> unused[k] in dentry && dentry[unused[k]].sb != sb
        invariant Freed(deletes, old(dentry), old(held), dentry, held, may)
        decreases |dentry|, |unused| - j
      {
        AllHeld({});
        if dentry[unused[j]].sb != sb {
          j := j + 1;
        } else {
          var x := Unlist(j);
          if dentry[x].count == 0 {
            ghost var d, u, h := dentry, unused, held;
            ghost var killed, stop := PruneOne(x);
            TreeRooted();
            PrunedFreed(deletes, d, u, h, dentry, unused, held, x, killed, stop);
            FreedKeys(deletes, old(dentry), old(held), d, h, may);
            FreedTransitive(deletes, old(dentry), old(held), d, h, dentry, held, may, {x}, may);
            j := 0;
          }
        }
      }
      AllZerosListed();
    }

    lemma InMembers(q: seq<Id>, u: seq<Id>, i: nat)
      requires Valid() && u == unused && i < |q| && Members(u) == Members(q)
      ensures q[i] in u && q[i] in dentry
    {
      assert q[i] in Members(q);
    }

    lemma AllZerosListed()
      requires Valid()
      ensures forall y <- dentry :: dentry[y].count == 0 ==> y in unused
    {}

    lemma Parts()
      requires Valid()
      ensures TreeOk(dentry, rank) && CountOk(dentry, held) && TableOk(dentry, table)
    {}

    lemma TreeRooted()
      requires Valid()
      ensures Rooted(dentry)
    {
      forall y <- dentry ensures RootedAt(dentry, y) {
        assert NodeOk(dentry, rank, y);
      }
    }

    lemma RankBound() returns (n: nat)
      requires Valid()
      ensures TreeOk(dentry, rank) && Bounded(dentry, rank, n)
    {
      n := TreeBounded(dentry, rank);
    }
  }

  /**
    An anonymous dentry moved over one that was never hashed: both have no
    bucket, so it stays where it is hashed, and is not found under its new name.
  */
  method NullBucketExample(hash: (Id, nat) -> nat) returns (c: Cache, found: Option<Id>)
    ensures c.Sound() && !c.Valid()
    ensures Named(c.dentry, (a, b) => a == b, 0, 7, "a", 1) && found.None?
  {
    hide CountOk, ListOk, ZerosListed, TableOk, BucketsOk, TreeOk;
    c := new Cache(hash, e => false);
    var _ := c.AllocRoot(0, Some(0), Some(0));
    c.AttachAnon(0, 1, 1);
    var _ := c.Alloc(0, "a", 7, Some(2));
    ghost var d := c.dentry;
    assert MayMove(d, c.rank, 1, 2) by { Unrelated(d, c.rank, 0, 1, 2); }
    c.Rename(1, 2, "");
    ChainMembers(c.dentry, c.table, hash(0, 7));
    found := c.Search((a, b) => a == b, 0, 7, "a");
  }

  lemma Unrelated(d: map<Id, Dentry>, rank: map<Id, nat>, p: Id, x: Id, t: Id)
    requires TreeOk(d, rank) && p in d && x in d && t in d && x != t && x != p && t != p
    requires d[p].parent == p && d[x].parent == x && d[t].parent == p
    ensures MayMove(d, rank, x, t)
  {}

  /** The list when `visited` have been taken off it and those of them in use left off. */
  ghost predicate Selected(d: map<Id, Dentry>, u0: seq<Id>, u: seq<Id>, visited: seq<Id>, sel: seq<Id>) {
    && (forall y <- visited :: y in d)
    && sel == ZerosOf(d, visited)
    && u == Minus(u0, Members(visited)) + sel
  }

  lemma SelectBegins(d: map<Id, Dentry>, u: seq<Id>)
    ensures Selected(d, u, u, [], [])
  {
    assert Members([]) == {};
    MinusNothing(u, {});
  }

  lemma SelectStep(d: map<Id, Dentry>, u0: seq<Id>, u: seq<Id>, u1: seq<Id>, visited: seq<Id>, sel: seq<Id>,
                   x: Id, rest: seq<Id>, all: seq<Id>)
    requires Selected(d, u0, u, visited, sel) && x in d
    requires NoDup(all) && visited + ([x] + rest) == all
    requires u1 == Minus(u, {x}) + (if d[x].count == 0 then [x] else [])
    ensures Selected(d, u0, u1, visited + [x], sel + (if d[x].count == 0 then [x] else []))
  {
    hide Minus;
    assert (visited + [x])[..|visited|] == visited;
    var v := Members(visited);
    assert v + {x} == Members(visited + [x]);
    assert x !in visited by {
      assert all[|visited|] == x;
      assert forall k :: 0 <= k < |visited| ==> all[k] == visited[k];
    }
    MinusConcat(Minus(u0, v), sel, {x});
    MinusMinus(u0, v, {x});
    ZerosMembers(d, visited);
    MinusNothing(sel, {x});
  }

  lemma SelectEnds(d: map<Id, Dentry>, u0: seq<Id>, u: seq<Id>, visited: seq<Id>, sel: seq<Id>)
    requires Selected(d, u0, u, visited, sel)
    ensures (forall y <- visited :: y in d) && sel == ZerosOf(d, visited) && u == Minus(u0, Members(visited)) + sel
  {}

  lemma {:induction false} ZerosMembers(d: map<Id, Dentry>, q: seq<Id>)
    requires forall y <- q :: y in d
    ensures forall y :: y in ZerosOf(d, q) <==> y in q && d[y].count == 0
  {
    if q != [] {
      ZerosMembers(d, q[..|q| - 1]);
      assert q == q[..|q| - 1] + [q[|q| - 1]];
    }
  }

  function Members(q: seq<Id>): set<Id> { set y | y in q }

  /** Those of q that nobody uses. */
  ghost function ZerosOf(d: map<Id, Dentry>, q: seq<Id>): seq<Id>
    requires forall y <- q :: y in d
  {
    if q == [] then []
    else ZerosOf(d, q[..|q| - 1]) + if d[q[|q| - 1]].count == 0 then [q[|q| - 1]] else []
  }

  /** The unused dentries with a reference mark. */
  ghost function MarkedZeros(d: map<Id, Dentry>): set<Id> {
    set x | x in d && d[x].count == 0 && d[x].referenced
  }

  /** A round of pruning frees something or takes marks away without setting any. */
  lemma ShrinkMakesProgress(d0: map<Id, Dentry>, d1: map<Id, Dentry>, sel: seq<Id>)
    requires sel != [] && SelectedHandled(d0, d1, sel, 0)
    ensures |d1| < |d0| || (|d1| == |d0| && |MarkedZeros(d1)| < |MarkedZeros(d0)|)
  {
    assert sel[0..] == sel;
    if d1.Keys == d0.Keys {
      assert |d1.Keys| == |d0.Keys|;
      assert sel[0] in MarkedZeros(d0);
      ProperSubsetSmaller(MarkedZeros(d1), MarkedZeros(d0), sel[0]);
    } else {
      var k :| k in d0.Keys && k !in d1.Keys;
      ProperSubsetSmaller(d1.Keys, d0.Keys, k);
    }
  }

  lemma ProperSubsetSmaller(a: set<Id>, b: set<Id>, x: Id)
    requires a <= b && x in b && x !in a
    ensures |a| < |b|
  {
    SubsetSize(a, b - {x});
  }

  lemma {:induction false} SubsetSize(a: set<Id>, b: set<Id>)
    requires a <= b
    ensures |a| <= |b|
    decreases |a|
  {
    if a != {} {
      var x :| x in a;
      SubsetSize(a - {x}, b - {x});
    }
  }

  /** A dentry that stays keeps its fields, the count and the children apart, and its mark while it is in use. */
  ghost predicate Spared(a: Dentry, b: Dentry) {
    && b == a.(count := b.count, subdirs := b.subdirs, referenced := b.referenced)
    && b.count <= a.count && (b.count >= 1 ==> b.referenced == a.referenced)
  }

  /** A freed dentry is held by nobody outside; its children go with it. */
  ghost predicate MayGo(deletes: Dentry -> bool, d0: map<Id, Dentry>, h0: map<Id, int>, d1: map<Id, Dentry>,
                        may: set<Id>, y: Id)
  {
    && y in d0 && y in h0
    && (y !in d1 ==> h0[y] <= 0 && (y in may || (d0[y].count >= 1 && Goes(deletes, d0[y]))))
    && (d0[y].parent in d0 && d0[y].parent !in d1 ==> y !in d1)
  }

  ghost predicate Stays(d0: map<Id, Dentry>, h0: map<Id, int>, d1: map<Id, Dentry>, h1: map<Id, int>,
                        may: set<Id>, y: Id)
  {
    && y in d0 && y in d1 && y in h0 && y in h1 && h1[y] == h0[y] && Spared(d0[y], d1[y])
    && (d1[y] == d0[y] || (y in may && d0[y].count == 0) || LostChild(d0, d1, y))
  }

  /**
    What may be freed when the business is with the dentries of `may`: one of
    these, or a dentry that was in use, by its children only, and went with
    the last of them, as it must.  Nobody outside holds a freed dentry, and its
    children are freed with it.  The others stay: unchanged, unless a child of
    theirs is gone or they are unused themselves and in `may`.
  */
  ghost predicate Freed(deletes: Dentry -> bool, d0: map<Id, Dentry>, h0: map<Id, int>,
                        d1: map<Id, Dentry>, h1: map<Id, int>, may: set<Id>)
  {
    && d1.Keys <= d0.Keys
    && (forall y {:trigger MayGo(deletes, d0, h0, d1, may, y)} :: y in d0 ==> MayGo(deletes, d0, h0, d1, may, y))
    && (forall y {:trigger Stays(d0, h0, d1, h1, may, y)} :: y in d1 ==> Stays(d0, h0, d1, h1, may, y))
  }

  lemma FreedNothing(deletes: Dentry -> bool, d: map<Id, Dentry>, h: map<Id, int>, may: set<Id>)
    requires forall y <- d :: y in h
    ensures Freed(deletes, d, h, d, h, may)
  {}

  lemma FreedKeys(deletes: Dentry -> bool, d0: map<Id, Dentry>, h0: map<Id, int>,
                  d1: map<Id, Dentry>, h1: map<Id, int>, may: set<Id>)
    requires Freed(deletes, d0, h0, d1, h1, may)
    ensures d1.Keys <= d0.Keys && forall y <- d1 :: Spared(d0[y], d1[y])
  {
    forall y <- d1 ensures y in d0 && Spared(d0[y], d1[y]) {
      assert Stays(d0, h0, d1, h1, may, y);
    }
  }

  /** What is held stays. */
  lemma StillHeld(deletes: Dentry -> bool, d0: map<Id, Dentry>, h0: map<Id, int>,
                  d1: map<Id, Dentry>, h1: map<Id, int>, may: set<Id>, x: Id)
    requires Freed(deletes, d0, h0, d1, h1, may) && x in d0 && x in h0 && h0[x] >= 1
    ensures x in d1 && x in h1 && h1[x] >= 1
  {
    assert MayGo(deletes, d0, h0, d1, may, x);
    assert x in d1 ==> Stays(d0, h0, d1, h1, may, x);
  }

  lemma MayGoTransitive(deletes: Dentry -> bool, d0: map<Id, Dentry>, h0: map<Id, int>,
                        d1: map<Id, Dentry>, h1: map<Id, int>, d2: map<Id, Dentry>,
                        may0: set<Id>, may1: set<Id>, may: set<Id>, y: Id)
    requires MayGo(deletes, d0, h0, d1, may0, y) && may0 <= may && may1 <= may && d2.Keys <= d1.Keys
    requires y in d1 ==> Stays(d0, h0, d1, h1, may0, y) && MayGo(deletes, d1, h1, d2, may1, y)
    ensures MayGo(deletes, d0, h0, d2, may, y)
  {
    hide LostChild;
    assert y in d1 && d1[y].count >= 1 ==> Idle(d1[y]) == Idle(d0[y]);
  }

  lemma StaysTransitive(d0: map<Id, Dentry>, h0: map<Id, int>, d1: map<Id, Dentry>, h1: map<Id, int>,
                        d2: map<Id, Dentry>, h2: map<Id, int>,
                        may0: set<Id>, may1: set<Id>, may: set<Id>, y: Id)
    requires Stays(d0, h0, d1, h1, may0, y) && Stays(d1, h1, d2, h2, may1, y) && may0 <= may && may1 <= may
    requires d1.Keys <= d0.Keys && d2.Keys <= d1.Keys && forall z <- d1 :: d1[z].parent == d0[z].parent
    ensures Stays(d0, h0, d2, h2, may, y)
  {
    if LostChild(d0, d1, y) {
      var c :| c in d0 && c !in d1 && d0[c].parent == y;
      assert c !in d2;
    } else if LostChild(d1, d2, y) {
      var c :| c in d1 && c !in d2 && d1[c].parent == y;
      assert c in d0 && d0[c].parent == y;
    }
  }

  lemma FreedTransitive(deletes: Dentry -> bool, d0: map<Id, Dentry>, h0: map<Id, int>,
                        d1: map<Id, Dentry>, h1: map<Id, int>, d2: map<Id, Dentry>, h2: map<Id, int>,
                        may0: set<Id>, may1: set<Id>, may: set<Id>)
    requires Freed(deletes, d0, h0, d1, h1, may0) && Freed(deletes, d1, h1, d2, h2, may1)
    requires may0 <= may && may1 <= may
    ensures Freed(deletes, d0, h0, d2, h2, may)
  {
    hide MayGo, Stays;
    FreedKeys(deletes, d0, h0, d1, h1, may0);
    forall y <- d0 ensures MayGo(deletes, d0, h0, d2, may, y) {
      MayGoTransitive(deletes, d0, h0, d1, h1, d2, may0, may1, may, y);
    }
    forall y <- d2 ensures Stays(d0, h0, d2, h2, may, y) {
      StaysTransitive(d0, h0, d1, h1, d2, h2, may0, may1, may, y);
    }
  }

  ghost function OfSuperblock(d: map<Id, Dentry>, sb: nat): set<Id> {
    set y | y in d && d[y].sb == sb
  }

  /** Nothing is put on a hash chain. */
  lemma AnonBefore(deletes: Dentry -> bool, d0: map<Id, Dentry>, t0: map<Chain, seq<Id>>, h0: map<Id, int>,
                   d: map<Id, Dentry>, t: map<Chain, seq<Id>>, h: map<Id, int>, may: set<Id>, sb: nat, sel: seq<Id>)
    requires TableOk(d0, t0) && TableOk(d, t) && Freed(deletes, d0, h0, d, h, may)
    requires may == Members(ChainOf(t0, Anon(sb))) && forall y <- sel :: y in ChainOf(t, Anon(sb))
    ensures Members(sel) <= may
  {
    FreedKeys(deletes, d0, h0, d, h, may);
    assert ChainOk(d, t, Anon(sb));
    forall y <- sel ensures y in ChainOf(t0, Anon(sb)) {
      assert HashAt(d0, t0, y);
    }
  }

  /** The strict descendants of p. */
  ghost function Beneath(d: map<Id, Dentry>, rank: map<Id, nat>, p: Id): set<Id>
    requires TreeOk(d, rank)
  {
    set y | y in d && y != p && Above(d, rank, p, y)
  }

  /** Ancestors stay ancestors, as far as they are still there. */
  lemma {:induction false} AboveBefore(d0: map<Id, Dentry>, d1: map<Id, Dentry>, rank: map<Id, nat>, p: Id, y: Id)
    requires TreeOk(d0, rank) && TreeOk(d1, rank) && d1.Keys <= d0.Keys && y in d1
    requires forall z <- d1 :: d1[z].parent == d0[z].parent
    requires Above(d1, rank, p, y)
    ensures Above(d0, rank, p, y)
    decreases if y in rank then rank[y] else 0
  {
    assert NodeOk(d0, rank, y) && NodeOk(d1, rank, y);
    if y != p {
      AboveBefore(d0, d1, rank, p, d1[y].parent);
    }
  }

  lemma SelectedBeneath(deletes: Dentry -> bool, d0: map<Id, Dentry>, h0: map<Id, int>,
                        d: map<Id, Dentry>, h: map<Id, int>, rank: map<Id, nat>, p: Id, visited: seq<Id>, sel: seq<Id>)
    requires TreeOk(d0, rank) && TreeOk(d, rank) && Freed(deletes, d0, h0, d, h, Beneath(d0, rank, p))
    requires forall y :: y in visited <==> y in d && y != p && Above(d, rank, p, y)
    requires forall y <- sel :: y in visited
    ensures Members(sel) <= Beneath(d0, rank, p)
  {
    hide TreeOk, Above;
    FreedKeys(deletes, d0, h0, d, h, Beneath(d0, rank, p));
    forall y <- sel ensures y in Beneath(d0, rank, p) {
      AboveBefore(d0, d, rank, p, y);
    }
  }

  /** What is freed in use is an ancestor of something freed unused; that is below p, and p stays. */
  lemma {:induction false} FreedBeneath(deletes: Dentry -> bool, d0: map<Id, Dentry>, h0: map<Id, int>,
                                        d1: map<Id, Dentry>, h1: map<Id, int>, rank: map<Id, nat>, n: nat, p: Id, y: Id)
    requires TreeOk(d0, rank) && CountOk(d0, h0) && Bounded(d0, rank, n) && p in d1
    requires Freed(deletes, d0, h0, d1, h1, Beneath(d0, rank, p)) && y in d0 && y !in d1
    ensures y in Beneath(d0, rank, p)
    decreases n - if y in rank then rank[y] else 0
  {
    hide Goes;
    assert NodeOk(d0, rank, y) && CountAt(d0, h0, y) && MayGo(deletes, d0, h0, d1, Beneath(d0, rank, p), y);
    if y !in Beneath(d0, rank, p) {
      var c := d0[y].subdirs[0];
      assert NodeOk(d0, rank, c) && MayGo(deletes, d0, h0, d1, Beneath(d0, rank, p), c);
      FreedBeneath(deletes, d0, h0, d1, h1, rank, n, p, c);
    }
  }

  lemma AllBeneath(deletes: Dentry -> bool, d0: map<Id, Dentry>, h0: map<Id, int>,
                   d1: map<Id, Dentry>, h1: map<Id, int>, rank: map<Id, nat>, n: nat, p: Id)
    requires TreeOk(d0, rank) && CountOk(d0, h0) && Bounded(d0, rank, n) && p in d1
    requires Freed(deletes, d0, h0, d1, h1, Beneath(d0, rank, p))
    ensures d0.Keys - d1.Keys <= Beneath(d0, rank, p)
  {
    hide TreeOk, CountOk, Freed, Beneath, Bounded;
    forall y | y in d0 && y !in d1 ensures y in Beneath(d0, rank, p) {
      FreedBeneath(deletes, d0, h0, d1, h1, rank, n, p, y);
    }
  }

  /** Killed are x and dentries that must go. */
  ghost predicate Asked(deletes: Dentry -> bool, d: map<Id, Dentry>, killed: set<Id>, x: Id) {
    forall k <- killed :: k in d && (k == x || Goes(deletes, d[k]))
  }

  ghost predicate RootedAt(d: map<Id, Dentry>, y: Id) {
    y in d && d[y].parent in d
  }

  ghost predicate Rooted(d: map<Id, Dentry>) {
    forall y {:trigger RootedAt(d, y)} :: y in d ==> RootedAt(d, y)
  }

  lemma PrunedFreed(deletes: Dentry -> bool, d: map<Id, Dentry>, u: seq<Id>, h: map<Id, int>,
                    d1: map<Id, Dentry>, u1: seq<Id>, h1: map<Id, int>, x: Id, killed: set<Id>, stop: Option<Id>)
    requires Pruned(d, u, h, d1, u1, h1, x, killed, stop) && Asked(deletes, d, killed, x) && Rooted(d1)
    requires x in d && x in h && h[x] <= 0 && forall y <- d :: y in h
    ensures Freed(deletes, d, h, d1, h1, {x}) && |d1| < |d|
  {
    hide Minus, Goes, LostChild;
    ProperSubsetSmaller(d1.Keys, d.Keys, x);
    forall y <- d1 ensures Stays(d, h, d1, h1, {x}, y) {}
    forall y <- d ensures MayGo(deletes, d, h, d1, {x}, y) {
      if y !in d1 {
        assert y in killed;
      } else {
        assert Spared(d[y], d1[y]) && RootedAt(d1, y);
      }
    }
  }

  lemma HandledFreed(deletes: Dentry -> bool, d: map<Id, Dentry>, u: seq<Id>, h: map<Id, int>,
                     d1: map<Id, Dentry>, u1: seq<Id>, h1: map<Id, int>, x: Id, killed: set<Id>, stop: Option<Id>)
    requires Handled(d, u, h, d1, u1, h1, x, killed, stop) && Asked(deletes, d, killed, x) && Rooted(d1)
    requires x in h && (d[x].count == 0 ==> h[x] <= 0) && forall y <- d :: y in h
    ensures Freed(deletes, d, h, d1, h1, {x})
  {
    hide Pruned, LostChild, Goes;
    if d[x].count != 0 {
      FreedNothing(deletes, d, h, {x});
    } else if d[x].referenced {
      forall y <- d1 ensures Stays(d, h, d1, h1, {x}, y) {}
      forall y <- d ensures MayGo(deletes, d, h, d1, {x}, y) {}
    } else {
      PrunedFreed(deletes, d, u, h, d1, u1, h1, x, killed, stop);
    }
  }

  /** A dput of the only reference to an unhashed dentry kills it. */
  lemma AliasGone(deletes: Dentry -> bool, d: map<Id, Dentry>, h: map<Id, int>,
                  d1: map<Id, Dentry>, u1: seq<Id>, h1: map<Id, int>,
                  d2: map<Id, Dentry>, u2: seq<Id>, h2: map<Id, int>, x: Id, killed: set<Id>, stop: Option<Id>)
    requires AsAsked(deletes, d1, d2, killed, stop) && Rooted(d2)
    requires x in d && d[x].count == 0 && x in h && h[x] == 0 && (forall y <- d :: y in h)
    requires d1 == d[x := d[x].(count := 1, hashed := false)] && h1 == h[x := 1]
    requires Cascade(d1, u1, h1, d2, u2, h2, x, killed, stop)
    ensures x !in d2 && d2.Keys <= d.Keys && Freed(deletes, d, h, d2, h2, {x})
  {
    hide Minus, Goes;
    forall y <- d2 ensures Stays(d, h, d2, h2, {x}, y) {
      if LostChild(d1, d2, y) {
        var c :| c in d1 && c !in d2 && d1[c].parent == y;
        assert c in d && d[c].parent == y;
      }
    }
    forall y <- d ensures MayGo(deletes, d, h, d2, {x}, y) {
      if y !in d2 {
        assert y in killed;
      } else {
        assert RootedAt(d2, y);
      }
    }
  }

  /** How prune_dcache can treat the dentry x that it took off the end of the list. */
  ghost predicate Handled(d0: map<Id, Dentry>, u0: seq<Id>, h0: map<Id, int>,
                          d1: map<Id, Dentry>, u1: seq<Id>, h1: map<Id, int>,
                          x: Id, killed: set<Id>, stop: Option<Id>)
  {
    && x in d0
    && if d0[x].count != 0 then d1 == d0 && u1 == u0 && h1 == h0
       else if d0[x].referenced then d1 == d0[x := d0[x].(referenced := false)] && u1 == [x] + u0 && h1 == h0
       else Pruned(d0, u0, h0, d1, u1, h1, x, killed, stop)
  }

  /** Of `sel`, those from k on are handled, and nothing else that was unused has been touched. */
  ghost predicate SelectedHandled(d0: map<Id, Dentry>, d1: map<Id, Dentry>, sel: seq<Id>, k: nat)
    requires k <= |sel|
  {
    && d1.Keys <= d0.Keys
    && (forall z <- sel[k..] :: z in d0 && d0[z].count == 0
          && (z in d1 ==> d0[z].referenced && d1[z] == d0[z].(referenced := false)))
    && (forall y <- d0 :: d0[y].count == 0 && y !in sel ==> y in d1 && d1[y] == d0[y])
    && (forall y <- d1 :: d1[y].count == 0 && d0[y].count != 0 ==> d1.Keys != d0.Keys)
  }

  /** The others of `sel` are untouched, and next in line at the end of the list. */
  ghost predicate SelectedWaiting(d0: map<Id, Dentry>, d1: map<Id, Dentry>, u1: seq<Id>, sel: seq<Id>, k: nat)
    requires k <= |sel|
  {
    && k <= |u1| && u1[|u1| - k..] == sel[..k] && NoDup(sel)
    && forall z <- sel[..k] :: z in d0 && z in d1 && d1[z] == d0[z] && d0[z].count == 0
  }

  lemma NobodyYet(d: map<Id, Dentry>, h: map<Id, int>, u: seq<Id>, sel: seq<Id>)
    requires forall y <- d :: y in h
    requires sel == [] || (|sel| <= |u| && sel == u[|u| - |sel|..] && forall z <- sel :: z in d && d[z].count == 0)
    requires NoDup(u)
    ensures sel != [] ==> SelectedHandled(d, d, sel, |sel|) && SelectedWaiting(d, d, u, sel, |sel|)
  {}

  lemma WaitingListed(d0: map<Id, Dentry>, d: map<Id, Dentry>, u: seq<Id>, sel: seq<Id>, k: nat)
    requires sel != [] ==> 0 < k <= |sel| && SelectedWaiting(d0, d, u, sel, k)
    ensures sel != [] ==> u != [] && u[|u| - 1] in Members(sel)
  {
    if sel != [] {
      assert u[|u| - k..][k - 1] == u[|u| - 1] && sel[..k][k - 1] == sel[k - 1];
    }
  }

  /** The next of `sel` is the dentry that was taken off the list. */
  lemma NextSelected(d0: map<Id, Dentry>, d: map<Id, Dentry>, u: seq<Id>, sel: seq<Id>, k: nat)
    requires 0 < k <= |sel| && u != [] && SelectedWaiting(d0, d, u, sel, k)
    ensures u[|u| - 1] == sel[k - 1] && u[..|u| - 1] == u[..|u| - k] + sel[..k - 1]
    ensures sel[k - 1..] == [sel[k - 1]] + sel[k..]
    ensures forall z <- sel[..k - 1] :: z in sel[..k] && z != sel[k - 1]
    ensures sel[k - 1] in sel[..k]
  {
    assert sel[..k] == sel[..k - 1] + [sel[k - 1]];
    assert u == u[..|u| - k] + sel[..k];
  }

  lemma StillWaiting(d0: map<Id, Dentry>,
                     d: map<Id, Dentry>, u: seq<Id>, h: map<Id, int>,
                     d1: map<Id, Dentry>, u1: seq<Id>, h1: map<Id, int>,
                     x: Id, killed: set<Id>, stop: Option<Id>, sel: seq<Id>, k: nat)
    requires 0 < k <= |sel| && u != [] && x == u[|u| - 1]
    requires SelectedWaiting(d0, d, u, sel, k)
    requires Handled(d, u[..|u| - 1], h, d1, u1, h1, x, killed, stop)
    ensures SelectedWaiting(d0, d1, u1, sel, k - 1)
  {
    hide Minus;
    NextSelected(d0, d, u, sel, k);
    var front, left := u[..|u| - k], sel[..k - 1];
    if d[x].count == 0 && !d[x].referenced {
      MinusConcat(front, left, killed);
      MinusNothing(left, killed);
    }
  }

  lemma HandledSelected(d0: map<Id, Dentry>,
                        d: map<Id, Dentry>, u: seq<Id>, h: map<Id, int>,
                        d1: map<Id, Dentry>, u1: seq<Id>, h1: map<Id, int>,
                        x: Id, killed: set<Id>, stop: Option<Id>, sel: seq<Id>, k: nat)
    requires 0 < k <= |sel| && u != [] && x == u[|u| - 1]
    requires SelectedHandled(d0, d, sel, k) && SelectedWaiting(d0, d, u, sel, k)
    requires Handled(d, u[..|u| - 1], h, d1, u1, h1, x, killed, stop)
    ensures SelectedHandled(d0, d1, sel, k - 1) && SelectedWaiting(d0, d1, u1, sel, k - 1)
  {
    hide Minus;
    StillWaiting(d0, d, u, h, d1, u1, h1, x, killed, stop, sel, k);
    NextSelected(d0, d, u, sel, k);
    assert x in d && d[x] == d0[x] && d[x].count == 0;
    assert x in sel;
    hide SelectedWaiting;
  }

  /**
    What pruning x did: besides x only dentries in use were killed, each held by
    nobody outside; at most one dentry has become unused, and it went to the
    head of the list.
  */
  ghost predicate Pruned(d0: map<Id, Dentry>, u0: seq<Id>, h0: map<Id, int>,
                         d1: map<Id, Dentry>, u1: seq<Id>, h1: map<Id, int>,
                         x: Id, killed: set<Id>, stop: Option<Id>)
  {
    && x in killed && killed <= d0.Keys && d1.Keys == d0.Keys - killed
    && (forall k <- killed :: k != x ==> d0[k].count >= 1 && k in h0 && h0[k] == 0)
    && (stop.Some? ==>
          && stop.value in d1 && d0[stop.value].count >= 1
          && Fewer(d0[stop.value], d1[stop.value]) && LostChild(d0, d1, stop.value))
    && (forall y <- d1 :: stop != Some(y) ==> d1[y] == d0[y])
    && (forall y <- d1 :: y in h0 && y in h1 && h1[y] == h0[y])
    && (if stop.Some? && d1[stop.value].count == 0 && stop.value !in u0
        then d1[stop.value].referenced && u1 == [stop.value] + Minus(u0, killed)
        else u1 == Minus(u0, killed))
  }

  /** A child lost after x was taken away, or x itself. */
  lemma LostBefore(d: map<Id, Dentry>, dropped: map<Id, Dentry>, d1: map<Id, Dentry>, d2: map<Id, Dentry>,
                   x: Id, parent: Id, stop: Option<Id>)
    requires x in d && parent == d[x].parent && parent in d && parent != x
    requires dropped == d[x := d[x].(hashed := false)]
    requires d1 == RemoveLeaf(dropped, x) && d1.Keys == d.Keys - {x} && d2.Keys <= d1.Keys
    requires stop.Some? && stop.value != parent ==> LostChild(d1, d2, stop.value)
    ensures stop.Some? ==> LostChild(d, d2, stop.value)
  {
    hide Minus;
    if stop.Some? && stop.value != parent {
      var c :| c in d1 && c !in d2 && d1[c].parent == stop.value;
      assert c in d && d[c].parent == stop.value;
    }
  }

  lemma PruneIs(d: map<Id, Dentry>, u: seq<Id>, h: map<Id, int>, dropped: map<Id, Dentry>,
                d1: map<Id, Dentry>, h1: map<Id, int>,
                d2: map<Id, Dentry>, u2: seq<Id>, h2: map<Id, int>,
                x: Id, parent: Id, killed: set<Id>, stop: Option<Id>)
    requires x in d && d[x].count == 0 && x !in u && parent == d[x].parent && parent in d && parent in h
    requires forall y <- d :: y in h
    requires dropped == d[x := d[x].(hashed := false)]
    requires d1 == RemoveLeaf(dropped, x) && d1.Keys == d.Keys - {x}
    requires h1 == HeldAfter(h, x, parent)
    requires if parent == x then d2 == d1 && u2 == Minus(u, {x}) && h2 == h1 && killed == {} && stop.None?
             else Cascade(d1, Minus(u, {x}), h1, d2, u2, h2, parent, killed, stop)
    ensures Pruned(d, u, h, d2, u2, h2, x, killed + {x}, stop)
  {
    hide Minus, LostChild;
    MinusMinus(u, {x}, killed);
    MinusMembers(u, {x});
    assert {x} + killed == killed + {x};
    if parent == x {
      assert killed + {x} == {x};
    } else {
      LostBefore(d, dropped, d1, d2, x, parent, stop);
    }
  }

  /** Taking x away changes nothing of what the others are asked. */
  lemma AskedBefore(deletes: Dentry -> bool, d: map<Id, Dentry>, dropped: map<Id, Dentry>, d1: map<Id, Dentry>,
                    x: Id, killed: set<Id>)
    requires x in d && d[x].parent in d
    requires dropped == d[x := d[x].(hashed := false)] && d1 == RemoveLeaf(dropped, x) && d1.Keys == d.Keys - {x}
    requires forall k <- killed :: k in d1 && Goes(deletes, d1[k])
    ensures Asked(deletes, d, killed + {x}, x)
  {
    hide Minus;
    forall k <- killed ensures Goes(deletes, d[k]) {
      assert Idle(d1[k]) == Idle(d[k]);
    }
  }

  /** The dentry where a cascade ends has one count less and perhaps one child less. */
  ghost predicate Fewer(a: Dentry, b: Dentry) {
    && b == a.(count := a.count - 1, subdirs := b.subdirs, referenced := b.referenced)
    && (if b.count == 0 then b.hashed else b.referenced == a.referenced)
  }

  /** A child of y has been freed. */
  ghost predicate LostChild(d0: map<Id, Dentry>, d1: map<Id, Dentry>, y: Id) {
    exists c :: c in d0 && c !in d1 && d0[c].parent == y
  }

  /**
    What a dput did: it killed dentries each of which had no reference left but
    the one given up, changed the one where it stopped and nothing else, and put
    that one on the unused list if it was not there and nobody uses it any more.
  */
  ghost predicate Cascade(d0: map<Id, Dentry>, u0: seq<Id>, h0: map<Id, int>,
                          d1: map<Id, Dentry>, u1: seq<Id>, h1: map<Id, int>,
                          first: Id, killed: set<Id>, stop: Option<Id>)
  {
    && killed <= d0.Keys && d1.Keys == d0.Keys - killed
    && (forall k <- killed :: d0[k].count >= 1 && k in h0 && h0[k] == if k == first then 1 else 0)
    && (stop.Some? ==> stop.value in d1 && d0[stop.value].count >= 1 && Fewer(d0[stop.value], d1[stop.value]))
    && (first in d1 ==> stop == Some(first))
    && (stop.Some? && stop.value != first ==> LostChild(d0, d1, stop.value))
    && (forall y <- d1 :: stop != Some(y) ==> d1[y] == d0[y])
    && (forall y <- d1 :: y in h0 && y in h1 && h1[y] == h0[y] - if y == first then 1 else 0)
    && (if stop.Some? && d1[stop.value].count == 0 && stop.value !in u0
        then d1[stop.value].referenced && u1 == [stop.value] + Minus(u0, killed)
        else u1 == Minus(u0, killed))
  }

  /** A dentry nobody uses has no children. */
  function Idle(e: Dentry): Dentry {
    e.(count := 0, subdirs := [])
  }

  /** What becomes of a dentry whose last reference goes: it is killed if it is asked for, or unhashed. */
  ghost predicate Goes(deletes: Dentry -> bool, e: Dentry) {
    deletes(Idle(e)) || !e.hashed
  }

  /** Killed are those that must go, and the one where the cascade stops is not one of them. */
  ghost predicate AsAsked(deletes: Dentry -> bool, d0: map<Id, Dentry>, d1: map<Id, Dentry>,
                          killed: set<Id>, stop: Option<Id>)
  {
    && (forall k <- killed :: k in d0 && Goes(deletes, d0[k]))
    && (stop.Some? ==>
          && stop.value in d0 && stop.value in d1
          && (d1[stop.value].count == 0 ==> !Goes(deletes, d0[stop.value])))
  }

  /** The same while the cascade stands before x, about to give up a reference to it. */
  ghost predicate Climbing(d0: map<Id, Dentry>, u0: seq<Id>, h0: map<Id, int>,
                           d: map<Id, Dentry>, u: seq<Id>, h: map<Id, int>,
                           first: Id, killed: set<Id>, x: Id)
  {
    && killed <= d0.Keys && d.Keys == d0.Keys - killed && x in d
    && (forall k <- killed :: d0[k].count >= 1 && k in h0 && h0[k] == if k == first then 1 else 0)
    && (x == first <==> killed == {}) && (killed != {} ==> first in killed) && (x != first ==> LostChild(d0, d, x))
    && d[x] == d0[x].(subdirs := d[x].subdirs)
    && (forall y <- d :: y != x ==> d[y] == d0[y])
    && (forall y <- d :: y in h0 && y in h &&
          h[y] == h0[y] - (if y == first then 1 else 0) + (if y == x then 1 else 0))
    && u == Minus(u0, killed)
  }

  lemma ClimbSame(d0: map<Id, Dentry>, u0: seq<Id>, h0: map<Id, int>,
                  d: map<Id, Dentry>, u: seq<Id>, h: map<Id, int>, first: Id, killed: set<Id>, x: Id)
    requires Climbing(d0, u0, h0, d, u, h, first, killed, x)
    ensures x in d0 && x in d && Idle(d[x]) == Idle(d0[x]) && d[x].hashed == d0[x].hashed
  {}

  lemma ClimbBegins(d: map<Id, Dentry>, u: seq<Id>, h: map<Id, int>, first: Id)
    requires first in d && forall y <- d :: y in h
    ensures Climbing(d, u, h, d, u, h, first, {}, first)
  {
    MinusNothing(u, {});
  }

  lemma ClimbStops(d0: map<Id, Dentry>, u0: seq<Id>, h0: map<Id, int>,
                   d: map<Id, Dentry>, u: seq<Id>, h: map<Id, int>,
                   d1: map<Id, Dentry>, u1: seq<Id>, h1: map<Id, int>,
                   first: Id, killed: set<Id>, x: Id)
    requires Climbing(d0, u0, h0, d, u, h, first, killed, x)
    requires x in d && x in h && x in d1 && d[x].count >= 1
    requires d1[x] == d[x].(count := d[x].count - 1, referenced := d1[x].referenced)
    requires d1 == d[x := d1[x]] && h1 == h[x := h[x] - 1]
    requires if d1[x].count == 0 then d1[x].hashed else d1[x].referenced == d[x].referenced
    requires if d1[x].count == 0 && x !in u then d1[x].referenced && u1 == [x] + u else u1 == u
    ensures Cascade(d0, u0, h0, d1, u1, h1, first, killed, Some(x))
  {
    MinusMembers(u0, killed);
  }

  lemma ClimbKills(d0: map<Id, Dentry>, u0: seq<Id>, h0: map<Id, int>,
                   d: map<Id, Dentry>, u: seq<Id>, h: map<Id, int>, e: Dentry,
                   first: Id, killed: set<Id>, x: Id)
    requires Climbing(d0, u0, h0, d, u, h, first, killed, x)
    requires x in d && x in h && d[x].count == 1 && h[x] == 1 && e.parent == d[x].parent && d[x].parent in d
    requires d[x].parent in h
    ensures var p, d1 := d[x].parent, RemoveLeaf(d[x := e], x);
      var h1 := HeldAfter(h[x := h[x] - 1], x, p);
      if p == x then Cascade(d0, u0, h0, d1, Minus(u, {x}), h1, first, killed + {x}, None)
      else Climbing(d0, u0, h0, d1, Minus(u, {x}), h1, first, killed + {x}, p)
  {
    hide Minus;
    MinusMinus(u0, killed, {x});
  }

  /** A killed dentry's reference to its parent passes to whoever killed it. */
  ghost function HeldAfter(held: map<Id, int>, x: Id, parent: Id): map<Id, int>
    requires parent in held
  {
    if parent == x then held else held[parent := held[parent] + 1]
  }

  lemma KillKeeps(d: map<Id, Dentry>, rank: map<Id, nat>, held: map<Id, int>, x: Id)
    requires TreeOk(d, rank) && CountOk(d, held) && x in d && d[x].count == 0
    ensures d[x].subdirs == [] && d[x].parent in d && d[x].parent in held && held[d[x].parent] >= 0
    ensures TreeOk(RemoveLeaf(d, x), rank) && CountOk(RemoveLeaf(d, x), HeldAfter(held, x, d[x].parent))
    ensures RemoveLeaf(d, x).Keys == d.Keys - {x} && |RemoveLeaf(d, x)| == |d| - 1
  {
    hide TreeOk, CountOk, Minus;
    NoChildren(d, rank, held, x);
    CountHeld(d, held, d[x].parent);
    RemoveLeafTree(d, rank, x);
    RemoveLeafCount(d, rank, held, x);
    KeysMinusOne(d, RemoveLeaf(d, x), x);
  }

  lemma KillKeepsLists(d: map<Id, Dentry>, unused: seq<Id>, nr: int, table: map<Chain, seq<Id>>,
                       hashOf: (Id, nat) -> nat, x: Id)
    requires x in d && d[x].parent in d && !d[x].hashed
    requires ListOk(d, unused, nr) && ZerosListed(d, unused, {x}) && TableOk(d, table) && BucketsOk(d, hashOf)
    ensures ListOk(RemoveLeaf(d, x), Minus(unused, {x}), if x in unused then nr - 1 else nr)
    ensures x !in unused ==> Minus(unused, {x}) == unused
    ensures ZerosListed(RemoveLeaf(d, x), Minus(unused, {x}), {})
    ensures TableOk(RemoveLeaf(d, x), table) && BucketsOk(RemoveLeaf(d, x), hashOf)
  {
    hide TableOk, BucketsOk, Minus;
    RemoveLeafList(d, unused, nr, {x}, x);
    RemoveLeafTable(d, table, hashOf, x);
    if x !in unused {
      MinusNothing(unused, {x});
    }
  }

  /** A dentry whose count is zero has no children. */
  lemma NoChildren(d: map<Id, Dentry>, rank: map<Id, nat>, held: map<Id, int>, x: Id)
    requires TreeOk(d, rank) && CountOk(d, held) && x in d && d[x].count == 0
    ensures d[x].subdirs == [] && d[x].parent in d
  {
    assert NodeOk(d, rank, x) && CountAt(d, held, x);
  }

  lemma CountHeld(d: map<Id, Dentry>, held: map<Id, int>, x: Id)
    requires CountOk(d, held) && x in d
    ensures x in held && held[x] >= 0 && d[x].count == held[x] + |d[x].subdirs|
  {
    assert CountAt(d, held, x);
  }

  lemma TouchList(d: map<Id, Dentry>, unused: seq<Id>, nr: int, x: Id, e: Dentry)
    requires ListOk(d, unused, nr) && x in d
    ensures ListOk(d[x := e], unused, nr)
  {}

  lemma UnlistUsed(d: map<Id, Dentry>, unused: seq<Id>, nr: int, x: Id)
    requires ListOk(d, unused, nr) && ZerosListed(d, unused, {}) && x in d && d[x].count != 0
    ensures x in unused ==> ListOk(d, Minus(unused, {x}), nr - 1)
    ensures ZerosListed(d, Minus(unused, {x}), {}) && x !in Minus(unused, {x})
    ensures x !in unused ==> Minus(unused, {x}) == unused
  {
    MinusMembers(unused, {x});
    MinusNoDup(unused, {x});
    MinusOne(unused, x);
    if x !in unused {
      MinusNothing(unused, {x});
    }
  }

  lemma KeysMinusOne(d: map<Id, Dentry>, e: map<Id, Dentry>, x: Id)
    requires x in d && e.Keys == d.Keys - {x}
    ensures |e| == |d| - 1
  {
    assert |e.Keys| == |d.Keys| - 1;
  }
}
