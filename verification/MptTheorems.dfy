/**
 What the update contracts of the trie amount to: the root depends on the contents only, a batch
 is the same as its changes made one by one, and after any run of operations the stored reference
 counts are exactly the numbers of positions of the nodes.
 */
module MptTheorems {
  import opened Wrappers
  import opened MptTree
  import opened MptNode
  import opened MptUpdate
  import opened MptStore
  import opened MptBatch
  import opened MptTrie
  import opened MptEncoding
  import opened MptProof

  /** Two tries with the same contents have the same root hash, whatever is compressed in them. */
  lemma {:induction false} SameContentsSameRoot(a: Node, b: Node)
    requires Canonical(Expand(a)) && Canonical(Expand(b)) && SameMap(Expand(a), Expand(b))
    ensures HashOf(Expand(a)) == HashOf(Expand(b))
  {
    CanonicalUnique(Expand(a), Expand(b));
  }

  /** `trees` are the states while the changes of `kv` are made one at a time. */
  ghost predicate IsFold(kv: seq<KeyValue>, trees: seq<Tree>) {
    && |trees| == |kv| + 1
    && forall i :: 0 <= i < |kv| ==> IsChange(trees[i], kv[i].key, kv[i].value, trees[i + 1])
  }

  lemma {:induction false} FoldIsUpdate(kv: seq<KeyValue>, trees: seq<Tree>, p: Path)
    requires IsFold(kv, trees)
    ensures Lookup(trees[|kv|], p) == Apply(kv, p, Lookup(trees[0], p))
  {
    if kv != [] {
      assert IsFold(kv[1..], trees[1..]) by {
        forall i | 0 <= i < |kv| - 1
          ensures IsChange(trees[1..][i], kv[1..][i].key, kv[1..][i].value, trees[1..][i + 1])
        {
          assert IsChange(trees[i + 1], kv[i + 1].key, kv[i + 1].value, trees[i + 2]);
        }
      }
      FoldIsUpdate(kv[1..], trees[1..], p);
      assert IsChange(trees[0], kv[0].key, kv[0].value, trees[1]);
    }
  }

  /**
   PutBatch and the changes one by one end in the same tree, hence the same root, and leave the
   same pending references.
   */
  lemma {:induction false} BatchIsFold(kv: seq<KeyValue>, trees: seq<Tree>, batch: Tree, r0: Refs, rBatch: Refs, rFold: Refs)
    requires IsFold(kv, trees) && Canonical(trees[0])
    requires IsUpdate(trees[0], kv, batch)
    requires Shift(r0, rBatch, trees[0], batch) && Shift(r0, rFold, trees[0], trees[|kv|])
    ensures batch == trees[|kv|]
    ensures forall t: Tree :: Delta(rBatch, t) == Delta(rFold, t)
  {
    var last := trees[|kv|];
    if kv != [] {
      assert IsChange(trees[|kv| - 1], kv[|kv| - 1].key, kv[|kv| - 1].value, last);
    }
    forall p: Path ensures Lookup(batch, p) == Lookup(last, p) {
      FoldIsUpdate(kv, trees, p);
    }
    CanonicalUnique(batch, last);
    forall t: Tree ensures Delta(rBatch, t) == Delta(rFold, t) {
      assert Delta(rBatch, t) == Delta(r0, t) + Occ(batch, t) - Occ(trees[0], t);
    }
  }

  /** One operation of a block; Commit flushes at a block index and may compress the trie. */
  datatype Op =
    | PutOp(key: seq<Byte>, value: Option<Value>)
    | DeleteOp(key: seq<Byte>)
    | GetOp(key: seq<Byte>)
    | BatchOp(kv: seq<KeyValue>)
    | Commit(index: nat, collapse: Option<nat>)

  /** The changes an operation makes; a rejected key or value changes nothing. */
  function Changes(op: Op): seq<KeyValue> {
    match op
    case PutOp(key, value) =>
      if key == [] || |key| > MAX_KEY_LENGTH || value.None? || |value.value| > MAX_VALUE_LENGTH then []
      else [KeyValue(ToNibbles(key), value)]
    case DeleteOp(key) => if |key| > MAX_KEY_LENGTH then [] else [KeyValue(ToNibbles(key), None)]
    case GetOp(_) => []
    case BatchOp(kv) => kv
    case Commit(_, _) => []
  }

  function AllChanges(ops: seq<Op>): seq<KeyValue> {
    if ops == [] then [] else AllChanges(ops[..|ops| - 1]) + Changes(ops[|ops| - 1])
  }

  /** The changes of a batch are within the limits, which only single changes are checked for. */
  ghost predicate ChangesFit(kv: seq<KeyValue>) {
    forall i :: 0 <= i < |kv| && kv[i].value.Some? ==>
      |kv[i].key| % 2 == 0 && |kv[i].key| <= MAX_PATH_LENGTH && |kv[i].value.value| <= MAX_VALUE_LENGTH
  }

  lemma {:induction false} AllChangesFit(ops: seq<Op>)
    requires forall i :: 0 <= i < |ops| && ops[i].BatchOp? ==> ChangesFit(ops[i].kv)
    ensures ChangesFit(AllChanges(ops))
  {
    if ops != [] {
      AllChangesFit(ops[..|ops| - 1]);
      assert ChangesFit(Changes(ops[|ops| - 1]));
    }
  }

  /** A value that is there after the changes was there before, or is one of theirs. */
  lemma {:induction false} ApplyFits(kv: seq<KeyValue>, p: Path, was: Option<Value>)
    requires ChangesFit(kv)
    requires was.Some? ==> |p| % 2 == 0 && |p| <= MAX_PATH_LENGTH && |was.value| <= MAX_VALUE_LENGTH
    ensures var r := Apply(kv, p, was);
      r.Some? ==> |p| % 2 == 0 && |p| <= MAX_PATH_LENGTH && |r.value| <= MAX_VALUE_LENGTH
  {
    if kv != [] {
      assert ChangesFit(kv[1..]) by {
        forall i | 0 <= i < |kv| - 1 ensures kv[1..][i] == kv[i + 1] {
        }
      }
      ApplyFits(kv[1..], p, if kv[0].key == p then kv[0].value else was);
    }
  }

  /** Contents within the limits stay so, and then every node of the trie can be decoded again. */
  lemma {:induction false} UpdateFits(before: Tree, kv: seq<KeyValue>, after: Tree)
    requires Storable(before) && IsUpdate(before, kv, after) && ChangesFit(kv)
    ensures Storable(after) && Bounded(after)
  {
    forall p: Path | Lookup(after, p).Some?
      ensures |p| % 2 == 0 && |p| <= MAX_PATH_LENGTH && |Lookup(after, p).value| <= MAX_VALUE_LENGTH
    {
      ApplyFits(kv, p, Lookup(before, p));
    }
    WithinIsBounded(after, 0);
  }

  lemma {:induction false} UpdateSteps(a: Tree, kv: seq<KeyValue>, b: Tree, kv': seq<KeyValue>, c: Tree)
    requires IsUpdate(a, kv, b) && IsUpdate(b, kv', c)
    ensures IsUpdate(a, kv + kv', c)
  {
    forall p: Path ensures Lookup(c, p) == Apply(kv + kv', p, Lookup(a, p)) {
      ApplyConcat(kv, kv', p, Lookup(a, p));
    }
  }

  method Step(t: Trie, op: Op)
    requires t.Valid() && (op.BatchOp? ==> Sorted(op.kv))
    modifies t
    ensures t.Valid() && (op.Commit? ==> t.Clean())
    ensures IsUpdate(old(Expand(t.root)), Changes(op), Expand(t.root))
  {
    match op
    case PutOp(key, value) =>
      ghost var before := Expand(t.root);
      var err := t.Put(key, value);
      if err == None {
        ChangeIsUpdate(before, KeyValue(ToNibbles(key), value), Expand(t.root));
      }
    case DeleteOp(key) =>
      ghost var before := Expand(t.root);
      var err := t.Delete(key);
      if err == None {
        ChangeIsUpdate(before, KeyValue(ToNibbles(key), None), Expand(t.root));
      }
    case GetOp(key) =>
      var res := t.Get(key);
    case BatchOp(kv) =>
      var n := t.PutBatch(kv);
    case Commit(index, collapse) =>
      t.Flush(index);
      if collapse.Some? {
        t.Collapse(collapse.value);
      }
  }

  /**
   Any run of operations: the contents are the changes applied in order, and after a final commit
   every stored count is the number of positions of its node and every node can be read.
   */
  method Run(t: Trie, ops: seq<Op>)
    requires t.Valid()
    requires forall i :: 0 <= i < |ops| && ops[i].BatchOp? ==> Sorted(ops[i].kv)
    modifies t
    ensures t.Valid()
    ensures IsUpdate(old(Expand(t.root)), AllChanges(ops), Expand(t.root))
    ensures old(Storable(Expand(t.root))) && (forall i :: 0 <= i < |ops| && ops[i].BatchOp? ==> ChangesFit(ops[i].kv)) ==>
      Storable(Expand(t.root)) && Bounded(Expand(t.root))
    ensures ops != [] && ops[|ops| - 1].Commit? ==>
      && Covered(t.store, t.mode, Expand(t.root))
      && (t.mode.RC() ==> forall x: Tree :: CountOf(t.store, x) == Occ(Expand(t.root), x))
  {
    ghost var start := Expand(t.root);
    var i := 0;
    while i < |ops|
      invariant 0 <= i <= |ops| && t.Valid()
      invariant IsUpdate(start, AllChanges(ops[..i]), Expand(t.root))
      invariant i > 0 && ops[i - 1].Commit? ==> t.Clean()
    {
      ghost var before := Expand(t.root);
      Step(t, ops[i]);
      assert ops[..i + 1][..i] == ops[..i];
      UpdateSteps(start, AllChanges(ops[..i]), before, Changes(ops[i]), Expand(t.root));
      i := i + 1;
    }
    assert ops[..i] == ops;
    if Storable(start) && forall i :: 0 <= i < |ops| && ops[i].BatchOp? ==> ChangesFit(ops[i].kv) {
      AllChangesFit(ops);
      UpdateFits(start, AllChanges(ops), Expand(t.root));
    }
    if t.Clean() {
      MatchingStoreCovers(t.store, t.mode, Expand(t.root));
    }
  }

  /**
   A batch is not checked: a value that is too long gets into the trie, and its leaf cannot be decoded.
   */
  lemma {:induction false} LongValueIsLost(hash: HashFunction, v: Value, after: Tree)
    requires MAX_VALUE_LENGTH < |v| <= MAX_UINT64
    requires IsUpdate(Nil, [KeyValue([0, 0], Some(v))], after)
    ensures after == Ext([0, 0], Leaf(v)) && Decode(Encode(hash, Leaf(v))) == None
  {
    var key: Path := [0, 0];
    var kv, t := [KeyValue(key, Some(v))], Ext(key, Leaf(v));
    forall p: Path ensures Lookup(after, p) == Lookup(t, p) {
      assert kv[1..] == [] && Lookup(Nil, p) == None;
      assert Lookup(after, p) == Apply(kv, p, None) == Apply(kv[1..], p, if p == key then Some(v) else None);
      assert key <= p ==> p == key + p[|key|..];
      assert key <= p && p[|key|..] == [] ==> p == key;
    }
    CanonicalUnique(after, t);
    EncodingRoundTrip(hash, Leaf(v));
  }

  /** The bytes of a node, with its children by hash. */
  function Serialized(hash: HashFunction, nodes: seq<Node>): (r: seq<Bytes>)
    ensures |r| == |nodes| && forall i :: 0 <= i < |nodes| ==> r[i] == Encode(hash, Expand(nodes[i]))
  {
    seq(|nodes|, i requires 0 <= i < |nodes| => Encode(hash, Expand(nodes[i])))
  }

  /**
   A proof made by a trie is checked against its root: the value of the key comes out if there is one, and
   there is no proof otherwise. No two nodes of the trie may collide.
   */
  method ProveAndVerify(t: Trie, hash: HashFunction, key: seq<Byte>) returns (v: Option<Value>)
    requires t.Valid() && Storable(Expand(t.root)) && |key| <= MAX_KEY_LENGTH
    requires NoCollision(hash, Expand(t.root), EncodeAll(hash, PathNodes(Expand(t.root), ToNibbles(key))))
    modifies t
    ensures t.Valid() && Expand(t.root) == old(Expand(t.root))
    ensures v == Lookup(Expand(t.root), ToNibbles(key))
  {
    ghost var path := ToNibbles(key);
    var nodes, err := t.GetProof(key);
    if err.Some? {
      return None;
    }
    WithinIsBounded(Expand(t.root), 0);
    ProofComplete(hash, Expand(t.root), key);
    var proofs := Serialized(hash, nodes);
    assert proofs == EncodeAll(hash, PathNodes(Expand(t.root), path)) by {
      forall i | 0 <= i < |proofs| ensures Expand(nodes[i]) == PathNodes(Expand(t.root), path)[i] {
        ExpandShallow(PathNodes(Expand(t.root), path)[i]);
      }
    }
    AcceptedExactly(hash, Expand(t.root), key, proofs, Lookup(Expand(t.root), path).value, |proofs|);
    v := VerifyProof(hash, RootHash(hash, Expand(t.root)), key, proofs, |proofs|);
  }
}
