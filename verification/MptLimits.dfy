/**
 Where restoring does less than it promises: a store with garbage collection keeps nodes that the trie has
 dropped as inactive items, and a restore does not make these active again.
 */
module MptLimits {
  import opened Wrappers
  import opened MptTree
  import opened MptNode
  import opened MptUpdate
  import opened MptStore
  import opened MptTrie
  import opened MptBillet

  /** What a flush leaves as inactive items is what the trie has dropped. */
  lemma {:induction false} DroppedExactly(store: Store, store': Store, before: Tree, after: Tree, index: nat)
    requires StoreMatches(store, ModeGC, before) && FlushSpec(store, store', ModeGC, before, after, index)
    ensures forall y: Tree :: Occ(before, y) > 0 ==> (Inactive(store', y) <==> Occ(after, y) == 0)
  {
    FlushedStoreMatches(store, store', ModeGC, before, after, index);
    forall y: Tree | Occ(before, y) > 0 ensures Inactive(store', y) <==> Occ(after, y) == 0 {
      assert ItemAt(store', HashOf(y)) ==
        FlushedItem(ItemAt(store, HashOf(y)), ModeGC, y, Occ(before, y), Occ(after, y), index);
      assert CountOf(store, y) == Occ(before, y) && CountOf(store', y) == Occ(after, y);
    }
  }

  /** A trie that is restored over a store that it was flushed from can be read exactly if it lost no node since. */
  lemma {:induction false} RestoredExactly(store: Store, store': Store, before: Tree, after: Tree, index: nat, restored: Store)
    requires StoreMatches(store, ModeGC, before) && FlushSpec(store, store', ModeGC, before, after, index)
    requires Restocked(store', restored, ModeGC, before)
    ensures Covered(restored, ModeGC, before) <==> forall y: Tree :: Occ(before, y) > 0 ==> Occ(after, y) > 0
  {
    DroppedExactly(store, store', before, after, index);
    Readable(store', restored, ModeGC, before);
  }

  /** The trie with this one value. */
  function Single(key: seq<Byte>, value: Value): Tree {
    Ext(ToNibbles(key), Leaf(value))
  }

  lemma {:induction false} SingleIs(key: seq<Byte>, value: Value)
    requires key != []
    ensures Canonical(Single(key, value)) && EvenKeys(Single(key, value))
    ensures RestoreOrder(Single(key, value), [Pos([], Single(key, value)), Pos(ToNibbles(key), Leaf(value))])
    ensures Occ(Single(key, value), Leaf(value)) > 0
    ensures forall p: Path :: Lookup(Single(key, value), p) == if p == ToNibbles(key) then Some(value) else None
  {
    var t, path := Single(key, value), ToNibbles(key);
    var ps := [Pos([], t), Pos(path, Leaf(value))];
    assert [] + path == path && path[|path|..] == [];
    assert PosSet(ps[..0]) == {} && PosSet(ps[..1]) == {ps[0]} && PosSet(ps) == {ps[0], ps[1]};
    assert |path| == 2 * |key| && Occ(Leaf(value), Leaf(value)) == 1;
    assert Occ(t, Leaf(value)) >= OccBelow(t, Leaf(value)) == 1;
    forall p: Path ensures Lookup(t, p) == if p == path then Some(value) else None {
      if path <= p && p[|path|..] == [] { assert p == path; }
    }
  }

  /**
   A value is put and flushed, deleted and flushed again, and then its trie is restored: every step is
   fine and the billet is complete, but the trie cannot be read.
   */
  method InactiveIsLost(key: seq<Byte>, value: Value, index: nat, index': nat) returns (b: Billet)
    requires key != [] && |key| <= MAX_KEY_LENGTH && |value| <= MAX_VALUE_LENGTH
    ensures b.root == HashB(HashOf(Single(key, value)), true) && SameContents(b.temp, Single(key, value))
    ensures !Covered(b.store, ModeGC, Single(key, value))
  {
    SingleIs(key, value);
    var trie := new Trie(EmptyNode, ModeGC, map[]);
    var _ := trie.Put(key, Some(value));
    CanonicalUnique(Expand(trie.root), Single(key, value));
    trie.Flush(index);
    ghost var store := trie.store;
    var _ := trie.Delete(key);
    CanonicalUnique(Expand(trie.root), Nil);
    trie.Flush(index');
    DroppedExactly(store, trie.store, Single(key, value), Nil, index');
    b := RestoreAll(Single(key, value), [Pos([], Single(key, value)), Pos(ToNibbles(key), Leaf(value))], ModeGC, trie.store);
  }
}
