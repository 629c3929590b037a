/** switch_names: how two dentries exchange their names' storage when one is moved over the other. */
module DcacheNames {
  import opened Common

  /** Short names lie in d_iname, with their terminating byte. */
  const DNAME_INLINE_LEN: nat := 36

  /** d_name.name points to a block of its own, or to the dentry's d_iname. */
  datatype Storage = Storage(external: Option<nat>, iname: string, len: nat)

  ghost predicate StorageOk(heap: map<nat, string>, s: Storage) {
    match s.external
    case Some(p) => p in heap && s.len <= |heap[p]|
    case None => s.len <= |s.iname| < DNAME_INLINE_LEN
  }

  function NameOf(heap: map<nat, string>, s: Storage): string
    requires StorageOk(heap, s)
  {
    match s.external
    case Some(p) => heap[p][..s.len]
    case None => s.iname[..s.len]
  }

  /** switch_names, and the exchange of the lengths that follows it. */
  function SwitchNames(x: Storage, t: Storage): (r: (Storage, Storage)) {
    var (x', t') :=
      if t.external.Some? then
        if x.external.Some? then (x.(external := t.external), t.(external := x.external))
        else (x.(external := t.external), t.(external := None))
      else
        if x.external.Some? then (x.(iname := t.iname, external := None), t.(external := x.external))
        else (x.(iname := t.iname), t);
    (x'.(len := t.len), t'.(len := x.len))
  }

  function Blocks(s: Storage): multiset<nat> {
    if s.external.Some? then multiset{s.external.value} else multiset{}
  }

  /**
    The dentry answers to the target's name afterwards. Each block belongs to
    one of the two dentries as before: none is lost and none is shared. The
    dentry's storage is sound; so is the target's, its name being x's, when x
    had a block to give.
  */
  lemma SwitchNamesMoves(heap: map<nat, string>, x: Storage, t: Storage)
    requires StorageOk(heap, x) && StorageOk(heap, t)
    ensures var (x', t') := SwitchNames(x, t);
      && StorageOk(heap, x') && NameOf(heap, x') == NameOf(heap, t)
      && Blocks(x') + Blocks(t') == Blocks(x) + Blocks(t)
      && (x.external.Some? ==> StorageOk(heap, t') && NameOf(heap, t') == NameOf(heap, x))
      && (x.external.None? ==> t'.external.None? && t'.iname == t.iname)
  {}
}
