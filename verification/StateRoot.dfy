/**
 The local state root module of pkg/core/stateroot/module.go: one trie update per block, and the
 collection of nodes that no remaining root needs.
 */
module StateRoot {
  import opened Wrappers
  import opened MptTree
  import opened MptNode
  import opened MptUpdate
  import opened MptStore
  import opened MptBatch
  import MptTrie

  /** An inactive node occurs in no root from its deactivation on. */
  ghost predicate StampsOk(store: Store, history: map<nat, Tree>) {
    forall h, k :: k in history && GoneAt(store, h, k) ==> Occ(history[k], h.tree) == 0
  }

  /** The item is inactive since block `k` or before. */
  predicate GoneAt(store: Store, h: Hash, k: nat) {
    h in store && store[h].Counted? && !store[h].active && store[h].tail <= k
  }

  /** All roots from `oldest` on can be read by a trie that ignores activity flags. */
  ghost predicate RootsReadable(store: Store, history: map<nat, Tree>, oldest: nat) {
    forall k :: k in history && oldest <= k ==> Covered(store, ModeLatest, history[k])
  }

  /** Whatever was stored is still stored with the same encoding. */
  ghost predicate Keeps(store: Store, store': Store) {
    forall h :: h in store ==> h in store' && store'[h].bytes == store[h].bytes && (store[h].Counted? ==> store'[h].Counted?)
  }

  lemma {:induction false} KeepsCovered(store: Store, store': Store, t: Tree)
    requires Keeps(store, store') && Covered(store, ModeLatest, t)
    ensures Covered(store', ModeLatest, t)
  {
    CoveredIffAvail(store, ModeLatest, t);
    CoveredIffAvail(store', ModeLatest, t);
  }

  lemma {:induction false} FlushKeeps(store: Store, store': Store, before: Tree, after: Tree, index: nat)
    requires StoreMatches(store, ModeGC, before) && FlushSpec(store, store', ModeGC, before, after, index)
    ensures Keeps(store, store')
  {
    forall h | h in store
      ensures h in store' && store'[h].bytes == store[h].bytes && store'[h].Counted?
    {
      assert ItemAt(store', h) ==
        FlushedItem(ItemAt(store, h), ModeGC, h.tree, Occ(before, h.tree), Occ(after, h.tree), index);
    }
  }

  lemma {:induction false} FlushStamps(store: Store, store': Store, history: map<nat, Tree>, before: Tree, after: Tree, index: nat)
    requires StoreMatches(store, ModeGC, before) && FlushSpec(store, store', ModeGC, before, after, index)
    requires StampsOk(store, history) && forall k :: k in history ==> k < index
    ensures StampsOk(store', history[index := after])
  {
    forall h: Hash, k: nat | k in history[index := after] && GoneAt(store', h, k)
      ensures Occ(history[index := after][k], h.tree) == 0
    {
      assert ItemAt(store', h) ==
        FlushedItem(ItemAt(store, h), ModeGC, h.tree, Occ(before, h.tree), Occ(after, h.tree), index);
      assert HashOf(h.tree) == h && CountOf(store, h.tree) == Occ(before, h.tree);
    }
  }

  /** The store after collection: items that became inactive up to block `index` are gone, the rest is untouched. */
  ghost predicate Collected(store: Store, store': Store, index: nat) {
    forall h: Hash :: ItemAt(store', h) == if Outdated(store, h, index) then None else ItemAt(store, h)
  }

  ghost predicate Outdated(store: Store, h: Hash, index: nat) {
    h in store && store[h].Counted? && !store[h].active && store[h].tail <= index
  }

  lemma {:induction false} CollectedReadable(store: Store, store': Store, history: map<nat, Tree>, oldest: nat, index: nat)
    requires Collected(store, store', index) && StampsOk(store, history) && RootsReadable(store, history, oldest)
    ensures RootsReadable(store', history, if oldest < index then index else oldest)
    ensures StampsOk(store', history)
  {
    forall h: Hash, k: nat | k in history && GoneAt(store', h, k) ensures Occ(history[k], h.tree) == 0 {
      assert ItemAt(store', h) == ItemAt(store, h);
      assert GoneAt(store, h, k);
    }
    forall k | k in history && oldest <= k && index <= k ensures Covered(store', ModeLatest, history[k]) {
      CoveredIffAvail(store, ModeLatest, history[k]);
      forall x: Tree | Occ(history[k], x) > 0 ensures Avail(store', ModeLatest, x) {
        assert Avail(store, ModeLatest, x);
        assert ItemAt(store', HashOf(x)) == ItemAt(store, HashOf(x));
      }
      CoveredIffAvail(store', ModeLatest, history[k]);
    }
  }

  lemma {:induction false} CollectedMatches(store: Store, store': Store, refs: Refs, flushed: Tree, index: nat)
    requires Collected(store, store', index) && StoreMatches(store, ModeGC, flushed) && RefsOk(refs, store, ModeGC)
    ensures StoreMatches(store', ModeGC, flushed) && RefsOk(refs, store', ModeGC)
  {
    forall h | h in refs && refs[h].initial != 0 ensures h in store' && store'[h] == store[h] {
      assert ItemAt(store', h) == ItemAt(store, h);
    }
    forall h | h in store' ensures h in store && store'[h] == store[h] {
      assert ItemAt(store', h).Some?;
    }
    forall t: Tree ensures CountOf(store', t) == Occ(flushed, t) {
      assert CountOf(store, t) == Occ(flushed, t);
      assert ItemAt(store', HashOf(t)) == ItemAt(store, HashOf(t)) || CountOf(store, t) == 0;
    }
  }

  /** The keys of `todo` are not looked at yet. */
  ghost predicate CollectedBut(store: Store, store': Store, todo: set<Hash>, index: nat) {
    && (forall h :: h in todo ==> ItemAt(store', h) == ItemAt(store, h))
    && (forall h :: h !in todo ==> ItemAt(store', h) == if Outdated(store, h, index) then None else ItemAt(store, h))
  }

  /** The nodes that a block drops are marked with its index. */
  ghost predicate Dropped(before: Tree, after: Tree, store: Store, index: nat) {
    forall y: Tree :: Occ(before, y) > 0 && Occ(after, y) == 0 ==> ItemAt(store, HashOf(y)) == Some(Counted(Shallow(y), false, index))
  }

  lemma {:induction false} DroppedMarked(store: Store, store': Store, before: Tree, after: Tree, index: nat)
    requires FlushSpec(store, store', ModeGC, before, after, index)
    ensures Dropped(before, after, store', index)
  {
    forall y: Tree | Occ(before, y) > 0 && Occ(after, y) == 0
      ensures ItemAt(store', HashOf(y)) == Some(Counted(Shallow(y), false, index))
    {
      assert ItemAt(store', HashOf(y)) == FlushedItem(ItemAt(store, HashOf(y)), ModeGC, y, Occ(before, y), Occ(after, y), index);
    }
  }

  /** Flushing one block more. */
  lemma {:induction false} OneBlock(store: Store, store': Store, history: map<nat, Tree>, oldest: nat, before: Tree, after: Tree, index: nat)
    requires StoreMatches(store, ModeGC, before) && FlushSpec(store, store', ModeGC, before, after, index)
    requires StampsOk(store, history) && RootsReadable(store, history, oldest) && forall k :: k in history ==> k < index
    requires Covered(store', ModeGC, after)
    ensures StampsOk(store', history[index := after]) && RootsReadable(store', history[index := after], oldest)
    ensures Dropped(before, after, store', index)
  {
    FlushStamps(store, store', history, before, after, index);
    FlushKeeps(store, store', before, after, index);
    DroppedMarked(store, store', before, after, index);
    forall k | k in history && oldest <= k ensures Covered(store', ModeLatest, history[k]) {
      KeepsCovered(store, store', history[k]);
    }
    CoveredIffAvail(store', ModeGC, after);
    CoveredIffAvail(store', ModeLatest, after);
  }

  lemma RemoveOne(store: Store, h: Hash)
    requires h in store
    ensures |store - {h}| == |store| - 1
  {
    assert (store - {h}).Keys == store.Keys - {h};
  }

  /** Walks over the store and drops what the callback of GC does not keep. */
  method SeekGC(store: Store, index: nat) returns (kept: Store, removed: nat)
    ensures Collected(store, kept, index) && removed == |store| - |kept|
  {
    kept, removed := store, 0;
    var todo := store.Keys;
    while todo != {}
      invariant todo <= kept.Keys
      invariant CollectedBut(store, kept, todo, index)
      invariant removed + |kept| == |store|
      decreases |todo|
    {
      var h :| h in todo;
      assert ItemAt(kept, h) == ItemAt(store, h);
      if GoneAt(kept, h, index) {
        RemoveOne(kept, h);
        kept := kept - {h};
        removed := removed + 1;
      }
      todo := todo - {h};
    }
  }

  class Module {
    var mpt: MptTrie.Trie
    var roots: map<nat, Option<Hash>>
    var localHeight: nat
    ghost var history: map<nat, Tree>
    ghost var oldest: nat

    /** Every root since the last collection is readable, in particular the current one. */
    ghost predicate Valid()
      reads this, mpt
    {
      && mpt.mode == ModeGC && mpt.Valid() && mpt.Clean()
      && roots.Keys == history.Keys
      && (forall k :: k in history ==> k <= localHeight && roots[k] == RootHash(history[k]))
      && StampsOk(mpt.store, history)
      && RootsReadable(mpt.store, history, oldest)
    }

    static function RootHash(t: Tree): Option<Hash> {
      if t == Nil then None else Some(HashOf(t))
    }

    /** A new chain: an empty trie over an empty store. */
    constructor ()
      ensures Valid() && fresh(mpt) && history == map[] && oldest == 0 && Expand(mpt.root) == Nil
    {
      mpt := new MptTrie.Trie(EmptyNode, ModeGC, map[]);
      roots, localHeight, history, oldest := map[], 0, map[], 0;
    }

    /** Updates the trie by the changes of block `index` and records the new root. */
    method AddMPTBatch(index: nat, kv: seq<KeyValue>)
      requires Valid() && Sorted(kv) && forall k :: k in history ==> k < index
      modifies this, mpt
      ensures Valid() && mpt == old(mpt) && oldest == old(oldest)
      ensures IsUpdate(old(Expand(mpt.root)), kv, Expand(mpt.root))
      ensures history == old(history)[index := Expand(mpt.root)]
      ensures roots == old(roots)[index := RootHash(Expand(mpt.root))] && localHeight == index
      ensures Dropped(old(Expand(mpt.root)), Expand(mpt.root), mpt.store, index)
    {
      hide Dropped, StampsOk, RootsReadable, FlushSpec, IsUpdate, MptTrie.Trie.Valid, MptTrie.Trie.Ready;
      ghost var store0, before := mpt.store, mpt.flushed;
      StoreNow(mpt);
      var n := mpt.PutBatch(kv);
      mpt.Flush(index);
      var root := mpt.StateRoot();
      StoreNow(mpt);
      ExpandNilRoot(mpt.store, mpt.root);
      roots := roots[index := root];
      localHeight := index;
      OneBlock(store0, mpt.store, history, oldest, before, mpt.flushed, index);
      history := history[index := mpt.flushed];
    }

    lemma StoreNow(trie: MptTrie.Trie)
      requires trie.Valid()
      ensures StoreMatches(trie.store, trie.mode, trie.flushed) && Resolvable(trie.store, trie.mode, trie.root)
    {
    }

    lemma ExpandNilRoot(store: Store, n: Node)
      requires Resolvable(store, ModeGC, n)
      ensures Expand(n) == Nil <==> n.EmptyNode?
    {
      NilIsEmptyNode(store, ModeGC, n);
    }

    /** Removes the items that were deactivated at or before `index`. */
    method GC(index: nat) returns (removed: nat)
      requires Valid()
      modifies this`oldest, mpt`store
      ensures Valid() && history == old(history)
      ensures oldest == if old(oldest) < index then index else old(oldest)
      ensures Collected(old(mpt.store), mpt.store, index)
      ensures removed == |old(mpt.store)| - |mpt.store|
    {
      ghost var store0 := mpt.store;
      var kept;
      kept, removed := SeekGC(mpt.store, index);
      mpt.store := kept;
      CollectedReadable(store0, mpt.store, history, oldest, index);
      CollectedMatches(store0, mpt.store, mpt.refcount, mpt.flushed, index);
      MatchingStoreCovers(mpt.store, ModeGC, mpt.flushed);
      ResolvableIsProper(store0, ModeGC, mpt.root);
      CoveredGivesResolvable(mpt.store, ModeGC, mpt.root);
      oldest := if oldest < index then index else oldest;
    }

    /** Reads a key under the root of block `k`, through a trie that ignores activity flags. */
    method GetState(k: nat, key: seq<Byte>) returns (res: Result<Value, MptTrie.Error>)
      requires Valid() && k in history && oldest <= k
      ensures res == if |key| > MAX_KEY_LENGTH then Err(MptTrie.KeyTooBig)
        else match Lookup(history[k], ToNibbles(key)) case None => Err(MptTrie.NotFound) case Some(v) => Ok(v)
    {
      var root := roots[k];
      var node := if root.Some? then HashNode(root.value) else EmptyNode;
      var tr := new MptTrie.Trie(node, ModeLatest, mpt.store);
      res := tr.Get(key);
    }
  }
}
