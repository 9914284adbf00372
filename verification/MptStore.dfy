/**
 The storage side of the trie: what is stored under a hash in each mode, when a whole tree can
 be read back, and the table of pending reference changes.
 */
module MptStore {
  import opened MptTree
  import opened MptNode
  import opened MptUpdate
  import opened Wrappers

  datatype Mode = ModeAll | ModeLatest | ModeGC {
    /** Reference counting is enabled. */
    predicate RC() {
      this != ModeAll
    }

    /** Unreferenced nodes are kept, marked inactive, until collected. */
    predicate GC() {
      this == ModeGC
    }
  }

  /**
   A stored node. With reference counting its encoding is followed by an activity flag and a
   number: the count while active, the block index of the deactivation afterwards.
   */
  datatype Item = Plain(bytes: Node) | Counted(bytes: Node, active: bool, tail: int)

  type Store = map<Hash, Item>

  predicate IsActiveValue(it: Item) {
    it.Counted? && it.active
  }

  /** The trie in `mode` can read the encoding of `t` from the store. */
  ghost predicate Avail(store: Store, mode: Mode, t: Tree) {
    && HashOf(t) in store
    && store[HashOf(t)].bytes == Shallow(t)
    && (mode.RC() ==> store[HashOf(t)].Counted?)
    && (mode.GC() ==> store[HashOf(t)].active)
  }

  /** Every node of `t` can be read. */
  ghost predicate Covered(store: Store, mode: Mode, t: Tree) {
    match t
    case Nil => true
    case Leaf(_) => Avail(store, mode, t)
    case Ext(_, next) => Avail(store, mode, t) && Covered(store, mode, next)
    case Branch(kids) =>
      Avail(store, mode, t) && forall i :: 0 <= i < |kids| ==> Covered(store, mode, kids[i])
  }

  /** Every hash node inside `n` can be resolved, down to the leaves. */
  ghost predicate Resolvable(store: Store, mode: Mode, n: Node) {
    match n
    case EmptyNode => true
    case LeafNode(_) => true
    case ExtensionNode(_, next) => Resolvable(store, mode, next)
    case BranchNode(cs) => forall i :: 0 <= i < |cs| ==> Resolvable(store, mode, cs[i])
    case HashNode(h) => h.tree != Nil && Covered(store, mode, h.tree)
  }

  lemma {:induction false} CoveredIffAvail(store: Store, mode: Mode, t: Tree)
    ensures Covered(store, mode, t) <==> forall x: Tree :: Occ(t, x) > 0 ==> Avail(store, mode, x)
  {
    if forall x: Tree :: Occ(t, x) > 0 ==> Avail(store, mode, x) {
      AvailGivesCovered(store, mode, t);
    }
    if Covered(store, mode, t) {
      forall x: Tree | Occ(t, x) > 0 ensures Avail(store, mode, x) {
        CoveredGivesAvail(store, mode, t, x);
      }
    }
  }

  lemma {:induction false} AvailGivesCovered(store: Store, mode: Mode, t: Tree)
    requires forall x: Tree :: Occ(t, x) > 0 ==> Avail(store, mode, x)
    ensures Covered(store, mode, t)
  {
    assert t != Nil ==> Occ(t, t) > 0;
    match t
    case Nil =>
    case Leaf(_) =>
    case Ext(_, next) =>
      assert forall x: Tree :: Occ(next, x) <= Occ(t, x);
      AvailGivesCovered(store, mode, next);
    case Branch(kids) =>
      forall i | 0 <= i < |kids| ensures Covered(store, mode, kids[i]) {
        forall x: Tree | Occ(kids[i], x) > 0 ensures Avail(store, mode, x) {
          OccKid(kids, i, x);
          assert Occ(t, x) > 0;
        }
        AvailGivesCovered(store, mode, kids[i]);
      }
  }

  lemma {:induction false} CoveredGivesAvail(store: Store, mode: Mode, t: Tree, x: Tree)
    requires Covered(store, mode, t) && Occ(t, x) > 0
    ensures Avail(store, mode, x)
    decreases t
  {
    if t != x {
      match t
      case Nil =>
      case Leaf(_) =>
      case Ext(_, next) => CoveredGivesAvail(store, mode, next, x);
      case Branch(kids) =>
        var i := SomeKidWith(kids, x);
        CoveredGivesAvail(store, mode, kids[i], x);
    }
  }

  lemma {:induction false} SomeKidWith(kids: seq<Tree>, x: Tree) returns (i: nat)
    requires OccAll(kids, x) > 0
    ensures i < |kids| && Occ(kids[i], x) > 0
  {
    if Occ(kids[0], x) > 0 {
      i := 0;
    } else {
      i := SomeKidWith(kids[1..], x);
      i := i + 1;
    }
  }

  /** No hash node of `n` hides the empty tree. */
  ghost predicate Proper(n: Node) {
    match n
    case EmptyNode => true
    case LeafNode(_) => true
    case ExtensionNode(_, next) => Proper(next)
    case BranchNode(cs) => forall i :: 0 <= i < |cs| ==> Proper(cs[i])
    case HashNode(h) => h.tree != Nil
  }

  lemma {:induction n} CoveredGivesResolvable(store: Store, mode: Mode, n: Node)
    requires Proper(n) && Covered(store, mode, Expand(n))
    ensures Resolvable(store, mode, n)
  {
    match n
    case BranchNode(cs) =>
      forall i | 0 <= i < |cs| ensures Resolvable(store, mode, cs[i]) {
        assert Covered(store, mode, Expand(n).kids[i]);
      }
    case _ =>
  }

  lemma {:induction n} ResolvableIsProper(store: Store, mode: Mode, n: Node)
    requires Resolvable(store, mode, n)
    ensures Proper(n)
  {
  }

  lemma NilIsEmptyNode(store: Store, mode: Mode, n: Node)
    requires Resolvable(store, mode, n)
    ensures n.EmptyNode? <==> Expand(n) == Nil
  {
  }

  /** A stored node, read back, leads only to hash nodes that can be read as well. */
  lemma {:induction false} ShallowResolvable(store: Store, mode: Mode, t: Tree)
    requires Covered(store, mode, t)
    ensures Resolvable(store, mode, Shallow(t)) && Expand(Shallow(t)) == t
  {
    ExpandShallow(t);
  }

  /** Occurrences below a branch that was built from two children. */
  lemma {:induction false} OccPair(i: nat, a: Tree, j: nat, b: Tree, x: Tree)
    requires i < CHILDREN_COUNT && j < CHILDREN_COUNT && i != j
    ensures OccAll(NoKids()[i := a][j := b], x) == Occ(a, x) + Occ(b, x)
  {
    OccNone(NoKids(), x);
    OccUpdate(NoKids(), i, a, x);
    OccUpdate(NoKids()[i := a], j, b, x);
  }

  /** A pending change: the encoding, the count last seen in the store, the change since. */
  datatype CachedNode = CachedNode(bytes: Node, initial: int, refcount: int)

  type Refs = map<Hash, CachedNode>

  ghost function Delta(refs: Refs, t: Tree): int {
    if HashOf(t) in refs then refs[HashOf(t)].refcount else 0
  }

  /** The references change by exactly the nodes of `after` minus those of `before`. */
  ghost predicate Shift(refs: Refs, refs': Refs, before: Tree, after: Tree) {
    forall t: Tree :: Delta(refs', t) == Delta(refs, t) + Occ(after, t) - Occ(before, t)
  }

  ghost predicate Added(refs: Refs, refs': Refs, t: Tree) {
    forall x: Tree :: Delta(refs', x) == Delta(refs, x) + if x == t then 1 else 0
  }

  ghost predicate Removed(refs: Refs, refs': Refs, t: Tree) {
    forall x: Tree :: Delta(refs', x) == Delta(refs, x) - if x == t then 1 else 0
  }

  lemma {:induction false} ShiftLeafIn(r0: Refs, r1: Refs, v: Value)
    requires Added(r0, r1, Leaf(v))
    ensures Shift(r0, r1, Nil, Leaf(v))
  {
    forall x: Tree ensures Delta(r1, x) == Delta(r0, x) + Occ(Leaf(v), x) - Occ(Nil, x) {
      OccSmall(v, x);
    }
  }

  lemma {:induction false} ShiftLeafOut(r0: Refs, r1: Refs, v: Value)
    requires Removed(r0, r1, Leaf(v))
    ensures Shift(r0, r1, Leaf(v), Nil)
  {
    forall x: Tree ensures Delta(r1, x) == Delta(r0, x) + Occ(Nil, x) - Occ(Leaf(v), x) {
      OccSmall(v, x);
    }
  }

  lemma {:induction false} ShiftTrans(r0: Refs, r1: Refs, r2: Refs, a: Tree, b: Tree, c: Tree)
    requires Shift(r0, r1, a, b) && Shift(r1, r2, b, c)
    ensures Shift(r0, r2, a, c)
  {
    forall x: Tree
      ensures Delta(r2, x) == Delta(r0, x) + Occ(c, x) - Occ(a, x)
    {
      assert Delta(r1, x) == Delta(r0, x) + Occ(b, x) - Occ(a, x);
    }
  }

  lemma {:induction false} ShiftUnder(r0: Refs, r1: Refs, key: Path, t: Tree)
    requires Added(r0, r1, Ext(key, t))
    ensures Shift(r0, r1, t, Ext(key, t))
  {
    forall x: Tree
      ensures Delta(r1, x) == Delta(r0, x) + Occ(Ext(key, t), x) - Occ(t, x)
    {
    }
  }

  /** Replacing a child and recounting the branch above it. */
  lemma {:induction false} ShiftBranch(r0: Refs, r1: Refs, r2: Refs, r3: Refs, kids: seq<Tree>, i: nat, kid: Tree)
    requires i < |kids|
    requires Removed(r0, r1, Branch(kids))
    requires Shift(r1, r2, kids[i], kid)
    requires Added(r2, r3, Branch(kids[i := kid]))
    ensures Shift(r0, r3, Branch(kids), Branch(kids[i := kid]))
  {
    forall x: Tree
      ensures Delta(r3, x) == Delta(r0, x) + Occ(Branch(kids[i := kid]), x) - Occ(Branch(kids), x)
    {
      OccUpdate(kids, i, kid, x);
      assert Delta(r2, x) == Delta(r1, x) + Occ(kid, x) - Occ(kids[i], x);
    }
  }

  /** A new branch over one counted and one newly counted subtree. */
  lemma {:induction false} ShiftPair(r0: Refs, r1: Refs, r2: Refs, r3: Refs, i: nat, a: Tree, a': Tree, j: nat, b: Tree)
    requires i < CHILDREN_COUNT && j < CHILDREN_COUNT && i != j
    requires Shift(r0, r1, a, a') && Shift(r1, r2, Nil, b)
    requires Added(r2, r3, Branch(NoKids()[i := a'][j := b]))
    ensures Shift(r0, r3, a, Branch(NoKids()[i := a'][j := b]))
  {
    var kids := NoKids()[i := a'][j := b];
    forall x: Tree
      ensures Delta(r3, x) == Delta(r0, x) + Occ(Branch(kids), x) - Occ(a, x)
    {
      OccPair(i, a', j, b, x);
      OccSmall([], x);
      assert Delta(r1, x) == Delta(r0, x) + Occ(a', x) - Occ(a, x);
      assert Delta(r2, x) == Delta(r1, x) + Occ(b, x) - Occ(Nil, x);
    }
  }

  lemma {:induction false} ShiftExt(r0: Refs, r1: Refs, r2: Refs, r3: Refs, key: Path, next: Tree, next': Tree)
    requires Removed(r0, r1, Ext(key, next))
    requires Shift(r1, r2, next, next')
    requires Added(r2, r3, Ext(key, next'))
    ensures Shift(r0, r3, Ext(key, next), Ext(key, next'))
  {
    forall x: Tree
      ensures Delta(r3, x) == Delta(r0, x) + Occ(Ext(key, next'), x) - Occ(Ext(key, next), x)
    {
      assert Delta(r2, x) == Delta(r1, x) + Occ(next', x) - Occ(next, x);
    }
  }

  /** A changed subtree once the extension above it is no longer counted. */
  lemma {:induction false} ShiftDropExt(r0: Refs, r1: Refs, r2: Refs, key: Path, next: Tree, next': Tree)
    requires Shift(r0, r1, next, next') && Removed(r1, r2, Ext(key, next))
    ensures Shift(r0, r2, Ext(key, next), next')
  {
    forall x: Tree
      ensures Delta(r2, x) == Delta(r0, x) + Occ(next', x) - Occ(Ext(key, next), x)
    {
      assert Delta(r1, x) == Delta(r0, x) + Occ(next', x) - Occ(next, x);
    }
  }

  lemma {:induction false} ShiftAfterDrop(r0: Refs, r1: Refs, r2: Refs, key: Path, next: Tree, after: Tree)
    requires Removed(r0, r1, Ext(key, next)) && Shift(r1, r2, next, after)
    ensures Shift(r0, r2, Ext(key, next), after)
  {
    forall x: Tree
      ensures Delta(r2, x) == Delta(r0, x) + Occ(after, x) - Occ(Ext(key, next), x)
    {
      assert Delta(r1, x) == Delta(r0, x) - if x == Ext(key, next) then 1 else 0;
    }
  }

  lemma {:induction false} ShiftRekey(r0: Refs, r1: Refs, r2: Refs, key: Path, key': Path, next: Tree)
    requires Removed(r0, r1, Ext(key, next)) && Added(r1, r2, Ext(key', next))
    ensures Shift(r0, r2, Ext(key, next), Ext(key', next))
  {
    forall x: Tree
      ensures Delta(r2, x) == Delta(r0, x) + Occ(Ext(key', next), x) - Occ(Ext(key, next), x)
    {
      assert Delta(r1, x) == Delta(r0, x) - if x == Ext(key, next) then 1 else 0;
    }
  }

  /** The children's references, for a branch that is itself not counted. */
  ghost predicate ShiftKids(refs: Refs, refs': Refs, before: seq<Tree>, after: seq<Tree>) {
    forall t: Tree :: Delta(refs', t) == Delta(refs, t) + OccAll(after, t) - OccAll(before, t)
  }

  /** `after` replaces children that were counted, below a branch that was not. */
  ghost predicate FromKids(refs: Refs, refs': Refs, kids: seq<Tree>, after: Tree) {
    forall t: Tree :: Delta(refs', t) == Delta(refs, t) + Occ(after, t) - OccAll(kids, t)
  }

  lemma {:induction false} KidsThenStrip(r0: Refs, r1: Refs, r2: Refs, kids: seq<Tree>, kids': seq<Tree>, after: Tree)
    requires ShiftKids(r0, r1, kids, kids') && FromKids(r1, r2, kids', after)
    ensures FromKids(r0, r2, kids, after)
  {
    forall x: Tree ensures Delta(r2, x) == Delta(r0, x) + Occ(after, x) - OccAll(kids, x) {
      assert Delta(r1, x) == Delta(r0, x) + OccAll(kids', x) - OccAll(kids, x);
    }
  }

  lemma {:induction false} RemovedFromKids(r0: Refs, r1: Refs, r2: Refs, kids: seq<Tree>, after: Tree)
    requires Removed(r0, r1, Branch(kids)) && FromKids(r1, r2, kids, after)
    ensures Shift(r0, r2, Branch(kids), after)
  {
    forall x: Tree ensures Delta(r2, x) == Delta(r0, x) + Occ(after, x) - Occ(Branch(kids), x) {
      assert Delta(r1, x) == Delta(r0, x) - if x == Branch(kids) then 1 else 0;
    }
  }

  lemma {:induction false} ShiftThenKid(r0: Refs, r1: Refs, r2: Refs, before: Tree, kids: seq<Tree>, i: nat, after: Tree)
    requires i < |kids| && OnlyAt(kids, i) && Shift(r0, r1, before, kids[i]) && FromKids(r1, r2, kids, after)
    ensures Shift(r0, r2, before, after)
  {
    forall x: Tree ensures Delta(r2, x) == Delta(r0, x) + Occ(after, x) - Occ(before, x) {
      OccOnly(kids, i, x);
      assert Delta(r1, x) == Delta(r0, x) + Occ(kids[i], x) - Occ(before, x);
    }
  }

  lemma {:induction false} KidsKids(r0: Refs, r1: Refs, r2: Refs, a: seq<Tree>, b: seq<Tree>, c: seq<Tree>)
    requires ShiftKids(r0, r1, a, b) && ShiftKids(r1, r2, b, c)
    ensures ShiftKids(r0, r2, a, c)
  {
    forall x: Tree ensures Delta(r2, x) == Delta(r0, x) + OccAll(c, x) - OccAll(a, x) {
      assert Delta(r1, x) == Delta(r0, x) + OccAll(b, x) - OccAll(a, x);
    }
  }

  lemma {:induction false} ShiftOneKid(r0: Refs, r1: Refs, kids: seq<Tree>, i: nat, kid: Tree)
    requires i < |kids| && Shift(r0, r1, kids[i], kid)
    ensures ShiftKids(r0, r1, kids, kids[i := kid])
  {
    forall x: Tree
      ensures Delta(r1, x) == Delta(r0, x) + OccAll(kids[i := kid], x) - OccAll(kids, x)
    {
      OccUpdate(kids, i, kid, x);
      assert Delta(r1, x) == Delta(r0, x) + Occ(kid, x) - Occ(kids[i], x);
    }
  }

  /** One child is all that is left, and something takes its place. */
  lemma {:induction false} ShiftToOnly(r0: Refs, r1: Refs, r2: Refs, t: Tree, kids: seq<Tree>, i: nat, after: Tree)
    requires forall x: Tree :: Delta(r1, x) == Delta(r0, x) + OccAll(kids, x) - Occ(t, x)
    requires i < |kids| && (forall j :: 0 <= j < |kids| && j != i ==> kids[j] == Nil) && Shift(r1, r2, kids[i], after)
    ensures Shift(r0, r2, t, after)
  {
    forall x: Tree ensures Delta(r2, x) == Delta(r0, x) + Occ(after, x) - Occ(t, x) {
      OccOnly(kids, i, x);
      assert Delta(r2, x) == Delta(r1, x) + Occ(after, x) - Occ(kids[i], x);
    }
  }

  lemma {:induction false} ShiftKidsDrop(r0: Refs, r1: Refs, r2: Refs, kids: seq<Tree>, after: seq<Tree>)
    requires ShiftKids(r0, r1, kids, after) && Removed(r1, r2, Branch(kids))
    ensures forall x: Tree :: Delta(r2, x) == Delta(r0, x) + OccAll(after, x) - Occ(Branch(kids), x)
  {
    forall x: Tree
      ensures Delta(r2, x) == Delta(r0, x) + OccAll(after, x) - Occ(Branch(kids), x)
    {
      assert Delta(r1, x) == Delta(r0, x) + OccAll(after, x) - OccAll(kids, x);
    }
  }

  lemma {:induction false} ResolvableBranch(store: Store, mode: Mode, cs: seq<Node>, i: nat, c: Node)
    requires Resolvable(store, mode, BranchNode(cs)) && Resolvable(store, mode, c) && i < |cs|
    ensures Resolvable(store, mode, cs[i])
    ensures Resolvable(store, mode, BranchNode(cs[i := c]))
  {
  }

  /** The table agrees with the store it was filled from. */
  ghost predicate RefsOk(refs: Refs, store: Store, mode: Mode) {
    && (mode == ModeLatest ==> forall h :: h in store && store[h].Counted? ==> store[h].active)
    && forall h :: h in refs ==>
      && h.tree != Nil
      && refs[h].bytes == Shallow(h.tree)
      && (mode.RC() && refs[h].initial != 0 ==>
          h in store && IsActiveValue(store[h]) && store[h].tail == refs[h].initial)
  }

  ghost function CountOf(store: Store, t: Tree): int {
    if HashOf(t) in store && IsActiveValue(store[HashOf(t)]) then store[HashOf(t)].tail else 0
  }

  /** Every stored item is the encoding of its key, in the layout of the mode. */
  ghost predicate ItemsOk(store: Store, mode: Mode) {
    forall h :: h in store ==>
      && h.tree != Nil
      && store[h].bytes == Shallow(h.tree)
      && (mode.RC() <==> store[h].Counted?)
      && (IsActiveValue(store[h]) ==> store[h].tail > 0)
      && (mode == ModeLatest ==> store[h].active)
  }

  /** The store is what flushing the tree `flushed` should have left behind. */
  ghost predicate StoreMatches(store: Store, mode: Mode, flushed: Tree) {
    && ItemsOk(store, mode)
    && (mode.RC() ==> forall t: Tree :: CountOf(store, t) == Occ(flushed, t))
    && (!mode.RC() ==> forall t: Tree :: Occ(flushed, t) > 0 ==> HashOf(t) in store)
  }

  lemma {:induction false} MatchingStoreCovers(store: Store, mode: Mode, flushed: Tree)
    requires StoreMatches(store, mode, flushed)
    ensures Covered(store, mode, flushed)
  {
    forall x: Tree | Occ(flushed, x) > 0 ensures Avail(store, mode, x) {
      if mode.RC() { assert CountOf(store, x) > 0; }
    }
    CoveredIffAvail(store, mode, flushed);
  }

  function ItemAt(store: Store, h: Hash): Option<Item> {
    if h in store then Some(store[h]) else None
  }

  /**
   What a flush at block `index` leaves under the hash of `t`, when `t` occurred `before` times
   at the last flush and occurs `after` times now.
   */
  ghost function FlushedItem(was: Option<Item>, mode: Mode, t: Tree, before: int, after: int, index: nat): Option<Item> {
    if before == after then was
    else if !mode.RC() then (if after > before then Some(Plain(Shallow(t))) else was)
    else if after > 0 then Some(Counted(Shallow(t), true, after))
    else if mode.GC() then Some(Counted(Shallow(t), false, index))
    else None
  }

  ghost predicate FlushSpec(store: Store, store': Store, mode: Mode, before: Tree, after: Tree, index: nat) {
    forall h: Hash ::
      ItemAt(store', h) == FlushedItem(ItemAt(store, h), mode, h.tree, Occ(before, h.tree), Occ(after, h.tree), index)
  }

  /** After a flush the store matches the new tree: every count is its number of positions. */
  lemma {:induction false} FlushedStoreMatches(store: Store, store': Store, mode: Mode, before: Tree, after: Tree, index: nat)
    requires StoreMatches(store, mode, before) && FlushSpec(store, store', mode, before, after, index)
    ensures StoreMatches(store', mode, after)
  {
    FlushedItemsOk(store, store', mode, before, after, index);
    forall t: Tree
      ensures mode.RC() ==> CountOf(store', t) == Occ(after, t)
      ensures !mode.RC() && Occ(after, t) > 0 ==> HashOf(t) in store'
    {
      assert ItemAt(store', HashOf(t)) ==
        FlushedItem(ItemAt(store, HashOf(t)), mode, t, Occ(before, t), Occ(after, t), index);
      assert mode.RC() ==> CountOf(store, t) == Occ(before, t);
    }
  }

  lemma {:induction false} FlushedItemsOk(store: Store, store': Store, mode: Mode, before: Tree, after: Tree, index: nat)
    requires StoreMatches(store, mode, before) && FlushSpec(store, store', mode, before, after, index)
    ensures ItemsOk(store', mode)
  {
    OccNil(before, after);
    forall h: Hash | h in store'
      ensures h.tree != Nil && store'[h].bytes == Shallow(h.tree) && (mode.RC() <==> store'[h].Counted?)
      ensures IsActiveValue(store'[h]) ==> store'[h].tail > 0
      ensures mode == ModeLatest ==> store'[h].active
    {
      assert ItemAt(store', h).Some?;
      assert mode.RC() ==> CountOf(store, h.tree) == Occ(before, h.tree);
    }
  }

  lemma OccNil(a: Tree, b: Tree)
    ensures Occ(a, Nil) == 0 && Occ(b, Nil) == 0
  {
    NoNilInside(a);
    NoNilInside(b);
  }

  lemma {:induction false} NoNilInside(t: Tree)
    ensures Occ(t, Nil) == 0
    decreases t, 1
  {
    match t
    case Nil =>
    case Leaf(_) =>
    case Ext(_, next) => NoNilInside(next);
    case Branch(kids) => NoNilAmong(kids);
  }

  lemma {:induction false} NoNilAmong(ts: seq<Tree>)
    ensures OccAll(ts, Nil) == 0
    decreases ts, 0
  {
    if ts != [] {
      NoNilInside(ts[0]);
      NoNilAmong(ts[1..]);
    }
  }

  /** A table entry right after its change has been written. */
  ghost predicate RefFlushed(refs: Refs, store: Store, mode: Mode, h: Hash) {
    && h in refs && h.tree != Nil
    && refs[h].bytes == Shallow(h.tree)
    && refs[h].refcount == 0
    && (mode.RC() && refs[h].initial != 0 ==>
        h in store && IsActiveValue(store[h]) && store[h].tail == refs[h].initial)
  }

  lemma {:induction false} FlushDone(store: Store, store': Store, refs: Refs, refs': Refs, mode: Mode, before: Tree, after: Tree, index: nat)
    requires StoreMatches(store, mode, before) && RefsOk(refs, store, mode)
    requires Shift(map[], refs, before, after)
    requires FlushProgress(store, refs, store', refs', {}, mode, before, after, index)
    ensures FlushSpec(store, store', mode, before, after, index)
    ensures StoreMatches(store', mode, after)
    ensures RefsOk(refs', store', mode) && Shift(map[], refs', after, after)
  {
    FlushDoneSpec(store, store', refs, refs', mode, before, after, index);
    FlushedStoreMatches(store, store', mode, before, after, index);
    forall t: Tree ensures Delta(refs', t) == 0 {
      if HashOf(t) in refs' { assert RefFlushed(refs', store', mode, HashOf(t)); }
    }
  }

  lemma {:induction false} FlushDoneSpec(store: Store, store': Store, refs: Refs, refs': Refs, mode: Mode, before: Tree, after: Tree, index: nat)
    requires StoreMatches(store, mode, before) && Shift(map[], refs, before, after)
    requires FlushProgress(store, refs, store', refs', {}, mode, before, after, index)
    ensures FlushSpec(store, store', mode, before, after, index)
  {
    forall h: Hash
      ensures ItemAt(store', h)
        == FlushedItem(ItemAt(store, h), mode, h.tree, Occ(before, h.tree), Occ(after, h.tree), index)
    {
      if h !in refs {
        assert HashOf(h.tree) == h;
        assert Delta(refs, h.tree) == 0 == Delta(map[], h.tree);
      }
    }
  }

  /** Flushing midway: the hashes outside `todo` have been dealt with, the others not touched. */
  ghost predicate FlushProgress(store0: Store, refs0: Refs, store: Store, refs: Refs, todo: set<Hash>, mode: Mode, before: Tree, after: Tree, index: nat) {
    && todo <= refs0.Keys && refs.Keys <= refs0.Keys
    && (forall h :: h in todo ==> h in refs && refs[h] == refs0[h])
    && (forall h :: h in todo || h !in refs0 ==> ItemAt(store, h) == ItemAt(store0, h))
    && (forall h :: h in refs0 && h !in todo ==>
        ItemAt(store, h) == FlushedItem(ItemAt(store0, h), mode, h.tree, Occ(before, h.tree), Occ(after, h.tree), index))
    && (forall h :: h in refs && h !in todo ==> RefFlushed(refs, store, mode, h))
  }

  /** The pending change of one hash, as Flush finds it. */
  ghost predicate EntryOk(store: Store, refs: Refs, mode: Mode, h: Hash, before: Tree, after: Tree) {
    && h in refs && h.tree != Nil && refs[h].bytes == Shallow(h.tree)
    && refs[h].refcount == Occ(after, h.tree) - Occ(before, h.tree)
    && (mode.RC() && refs[h].initial != 0 ==>
        h in store && IsActiveValue(store[h]) && store[h].tail == refs[h].initial)
    && (mode.RC() ==> CountOf(store, h.tree) == Occ(before, h.tree))
    && (h in store ==>
        && store[h].bytes == Shallow(h.tree) && (mode.RC() <==> store[h].Counted?)
        && (mode == ModeLatest ==> store[h].active))
  }

  /** What dealing with one hash changes. */
  ghost predicate OneFlushed(store: Store, refs: Refs, store': Store, refs': Refs, mode: Mode, h: Hash, before: Tree, after: Tree, index: nat) {
    && refs'.Keys <= refs.Keys
    && (forall g :: g != h ==> ItemAt(store', g) == ItemAt(store, g))
    && (forall g :: g != h && g in refs ==> g in refs' && refs'[g] == refs[g])
    && ItemAt(store', h) == FlushedItem(ItemAt(store, h), mode, h.tree, Occ(before, h.tree), Occ(after, h.tree), index)
    && (h in refs' ==> RefFlushed(refs', store', mode, h))
  }

  lemma {:induction false} FlushEntry(store0: Store, refs0: Refs, store: Store, refs: Refs, todo: set<Hash>, mode: Mode, before: Tree, after: Tree, index: nat, h: Hash)
    requires StoreMatches(store0, mode, before) && RefsOk(refs0, store0, mode) && Shift(map[], refs0, before, after)
    requires FlushProgress(store0, refs0, store, refs, todo, mode, before, after, index) && h in todo
    ensures EntryOk(store, refs, mode, h, before, after)
  {
    assert HashOf(h.tree) == h;
    assert ItemAt(store, h) == ItemAt(store0, h);
    assert Delta(refs0, h.tree) == Delta(map[], h.tree) + Occ(after, h.tree) - Occ(before, h.tree);
    assert CountOf(store, h.tree) == CountOf(store0, h.tree);
  }

  lemma {:induction false} FlushStep(store0: Store, refs0: Refs, store: Store, refs: Refs, todo: set<Hash>, mode: Mode, before: Tree, after: Tree, index: nat, h: Hash, store': Store, refs': Refs)
    requires FlushProgress(store0, refs0, store, refs, todo, mode, before, after, index) && h in todo
    requires OneFlushed(store, refs, store', refs', mode, h, before, after, index)
    ensures FlushProgress(store0, refs0, store', refs', todo - {h}, mode, before, after, index)
  {
    forall g | g in refs' && g !in todo - {h} ensures RefFlushed(refs', store', mode, g) {
      if g != h {
        assert RefFlushed(refs, store, mode, g);
        assert ItemAt(store', g) == ItemAt(store, g);
      }
    }
  }
}
