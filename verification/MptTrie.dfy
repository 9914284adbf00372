/**
 The trie of pkg/core/mpt/trie.go and batch.go. Nodes are values here; the root, the table of
 reference changes and the store are updated step by step as in the source. Every method that
 rewrites a node states three things about the node it returns: which map it denotes, that it is
 canonical, and that the pending references moved by exactly the difference of the two trees.
 */
module MptTrie {
  import opened Wrappers
  import opened MptTree
  import opened MptNode
  import opened MptUpdate
  import opened MptStore
  import opened MptBatch

  datatype Error = KeyIsEmpty | KeyTooBig | ValueTooBig | ValueIsNil | NotFound


  ghost predicate IsPut(before: Tree, path: Path, value: Value, after: Tree) {
    && IsChange(before, path, Some(value), after)
    && after != Nil
    && (before.Leaf? || before.Branch? ==> after.Leaf? || after.Branch?)
    && (path == [] && (before.Nil? || before.Leaf?) ==> after.Leaf?)
  }

  function NewBranchNode(): (cs: seq<Node>)
    ensures ExpandAll(cs) == NoKids()
  {
    seq(CHILDREN_COUNT, i => EmptyNode)
  }

  /** A branch has at least one child left after one deletion. */
  lemma {:induction false} LastOneRemains(kids: seq<Tree>, i: nat, kid: Tree) returns (j: nat)
    requires i < |kids| && HasTwo(kids)
    ensures j < |kids| && kids[i := kid][j] != Nil
  {
    var k, l :| 0 <= k < l < |kids| && kids[k] != Nil && kids[l] != Nil;
    j := if k == i then l else k;
  }

  function ShallowAll(ts: seq<Tree>): (r: seq<Node>)
    ensures |r| == |ts|
  {
    seq(|ts|, i requires 0 <= i < |ts| => Shallow(ts[i]))
  }

  lemma ProofStep(proofs: seq<Node>, t: Tree, path: Path, below: seq<Tree>)
    requires PathNodes(t, path) == [t] + below
    ensures proofs + [Shallow(t)] + ShallowAll(below) == proofs + ShallowAll(PathNodes(t, path))
  {
    assert ShallowAll([t] + below) == [Shallow(t)] + ShallowAll(below);
  }

  /** How many nodes on a path are not compressed. */
  ghost function OpenAlong(n: Node, path: Path): nat {
    match n
    case EmptyNode => 0
    case HashNode(_) => 0
    case LeafNode(_) => 1
    case ExtensionNode(key, next) => 1 + if key <= path then OpenAlong(next, path[|key|..]) else 0
    case BranchNode(cs) =>
      var (i, rest) := SplitPath(path);
      1 + if i < |cs| then OpenAlong(cs[i], rest) else 0
  }

  /** Every path is open as far as it was, up to a depth. */
  ghost predicate CutAt(n: Node, r: Node, depth: nat) {
    forall path: Path :: OpenAlong(r, path) == if OpenAlong(n, path) < depth then OpenAlong(n, path) else depth
  }

  lemma {:induction false} CutBranch(cs: seq<Node>, ds: seq<Node>, depth: nat)
    requires |cs| == |ds| && depth > 0 && forall i :: 0 <= i < |cs| ==> CutAt(cs[i], ds[i], depth - 1)
    ensures CutAt(BranchNode(cs), BranchNode(ds), depth)
  {
    var n, r := BranchNode(cs), BranchNode(ds);
    forall path: Path ensures OpenAlong(r, path) == if OpenAlong(n, path) < depth then OpenAlong(n, path) else depth {
      var (i, rest) := SplitPath(path);
      if i < |cs| {
        assert CutAt(cs[i], ds[i], depth - 1);
        assert OpenAlong(ds[i], rest) == if OpenAlong(cs[i], rest) < depth - 1 then OpenAlong(cs[i], rest) else depth - 1;
      }
    }
  }

  lemma {:induction false} CutExtension(key: Path, next: Node, c: Node, depth: nat)
    requires depth > 0 && CutAt(next, c, depth - 1)
    ensures CutAt(ExtensionNode(key, next), ExtensionNode(key, c), depth)
  {
    var n, r := ExtensionNode(key, next), ExtensionNode(key, c);
    forall path: Path ensures OpenAlong(r, path) == if OpenAlong(n, path) < depth then OpenAlong(n, path) else depth {
      if key <= path {
        var rest := path[|key|..];
        assert OpenAlong(c, rest) == if OpenAlong(next, rest) < depth - 1 then OpenAlong(next, rest) else depth - 1;
      }
    }
  }

  lemma ExpandNil(n: Node)
    requires Proper(n)
    ensures Expand(n) == Nil <==> n.EmptyNode?
  {
  }

  class Trie {
    const mode: Mode
    var store: Store
    var root: Node
    var refcount: Refs
    ghost var flushed: Tree

    constructor (root: Node, mode: Mode, store: Store)
      ensures this.root == root && this.mode == mode && this.store == store && refcount == map[]
      ensures Proper(root) && Canonical(Expand(root)) && StoreMatches(store, mode, Expand(root)) ==>
        Valid() && flushed == Expand(root)
      ensures Proper(root) && Covered(store, mode, Expand(root)) ==> Readable()
    {
      this.root, this.mode, this.store, this.refcount := root, mode, store, map[];
      flushed := Expand(root);
      new;
      if Proper(root) && StoreMatches(store, mode, flushed) {
        MatchingStoreCovers(store, mode, flushed);
      }
      if Proper(root) && Covered(store, mode, flushed) {
        CoveredGivesResolvable(store, mode, root);
      }
    }

    /** What reading needs; it also holds for a trie opened on an old root. */
    ghost predicate Readable()
      reads this
    {
      (refcount == map[] || RefsOk(refcount, store, mode)) && Resolvable(store, mode, root)
    }

    /** The state between any two operations. `flushed` is the tree at the last flush. */
    ghost predicate Valid()
      reads this
    {
      && Ready(root) && Canonical(Expand(root))
      && StoreMatches(store, mode, flushed)
      && Shift(map[], refcount, flushed, Expand(root))
    }

    /** Nothing is pending. */
    ghost predicate Clean()
      reads this
    {
      flushed == Expand(root)
    }


    /** What an update may assume of a node it starts from, and keeps. */
    ghost predicate Ready(n: Node)
      reads this
    {
      RefsOk(refcount, store, mode) && Resolvable(store, mode, n)
    }

    // ---- references ----

    method AddRef(t: Tree)
      requires RefsOk(refcount, store, mode) && t != Nil
      modifies this`refcount
      ensures RefsOk(refcount, store, mode)
      ensures Added(old(refcount), refcount, t)
    {
      var h, bs := HashOf(t), Shallow(t);
      if h !in refcount {
        refcount := refcount[h := CachedNode(bs, 0, 1)];
      } else {
        refcount := refcount[h := refcount[h].(refcount := refcount[h].refcount + 1)];
      }
    }

    method RemoveRef(t: Tree)
      requires RefsOk(refcount, store, mode) && t != Nil
      modifies this`refcount
      ensures RefsOk(refcount, store, mode)
      ensures Removed(old(refcount), refcount, t)
    {
      var h, bs := HashOf(t), Shallow(t);
      if h !in refcount {
        refcount := refcount[h := CachedNode(bs, 0, -1)];
      } else {
        refcount := refcount[h := refcount[h].(refcount := refcount[h].refcount - 1)];
      }
    }

    method GetFromStore(h: Hash) returns (n: Node)
      requires refcount == map[] || RefsOk(refcount, store, mode)
      requires Covered(store, mode, h.tree) && h.tree != Nil
      modifies this`refcount
      ensures RefsOk(old(refcount), store, mode) ==> RefsOk(refcount, store, mode)
      ensures old(refcount) == map[] ==> refcount == map[]
      ensures forall x: Tree :: Delta(refcount, x) == Delta(old(refcount), x)
      ensures n == Shallow(h.tree) && Expand(n) == h.tree && Resolvable(store, mode, n)
    {
      assert Avail(store, mode, h.tree) && h == HashOf(h.tree);
      var item := store[h];
      n := item.bytes;
      if mode.RC() && h in refcount {
        refcount := refcount[h := refcount[h].(bytes := item.bytes, initial := item.tail)];
      }
      ShallowResolvable(store, mode, h.tree);
    }

    // ---- operations ----

    method Get(key: seq<Byte>) returns (res: Result<Value, Error>)
      requires Readable()
      modifies this`root, this`refcount
      ensures Readable() && (old(Valid()) ==> Valid())
      ensures Expand(root) == old(Expand(root))
      ensures res == if |key| > MAX_KEY_LENGTH then Err(KeyTooBig)
        else match Lookup(Expand(root), ToNibbles(key)) case None => Err(NotFound) case Some(v) => Ok(v)
    {
      if |key| > MAX_KEY_LENGTH {
        return Err(KeyTooBig);
      }
      var r, leaf, prefix := GetWithPath(root, ToNibbles(key), true);
      if leaf == None {
        return Err(NotFound);
      }
      root := r;
      res := Ok(leaf.value.value);
    }

    /** The encodings of the nodes from the root to the leaf of `key`. */
    method GetProof(key: seq<Byte>) returns (proof: seq<Node>, err: Option<Error>)
      requires Readable()
      modifies this`root, this`refcount
      ensures Readable() && (old(Valid()) ==> Valid())
      ensures Expand(root) == old(Expand(root))
      ensures err == if |key| > MAX_KEY_LENGTH then Some(KeyTooBig)
        else if Lookup(Expand(root), ToNibbles(key)) == None then Some(NotFound) else None
      ensures err.None? ==> proof == ShallowAll(PathNodes(Expand(root), ToNibbles(key)))
    {
      proof := [];
      if |key| > MAX_KEY_LENGTH {
        return proof, Some(KeyTooBig);
      }
      var r, found;
      r, found, proof := GetProofFrom(root, ToNibbles(key), proof);
      if !found {
        return proof, Some(NotFound);
      }
      root := r;
      err := None;
    }

    method GetProofFrom(curr: Node, path: Path, proofs: seq<Node>) returns (r: Node, found: bool, proofs': seq<Node>)
      requires (refcount == map[] || RefsOk(refcount, store, mode)) && Resolvable(store, mode, curr)
      modifies this`refcount
      ensures RefsOk(old(refcount), store, mode) ==> RefsOk(refcount, store, mode)
      ensures old(refcount) == map[] ==> refcount == map[]
      ensures forall x: Tree :: Delta(refcount, x) == Delta(old(refcount), x)
      ensures Resolvable(store, mode, r) && Expand(r) == Expand(curr)
      ensures found <==> Lookup(Expand(curr), path).Some?
      ensures found ==> proofs' == proofs + ShallowAll(PathNodes(Expand(curr), path))
      decreases Expand(curr), if curr.HashNode? then 1 else 0
    {
      r, found, proofs' := curr, false, proofs;
      match curr
      case LeafNode(_) =>
        if path == [] {
          found, proofs' := true, proofs + [Shallow(Expand(curr))];
          assert ShallowAll([Expand(curr)]) == [Shallow(Expand(curr))];
        }
      case BranchNode(cs) =>
        ExpandBranch(cs);
        var (i, rest) := SplitPath(path);
        if i < |cs| {
          var c;
          c, found, proofs' := GetProofFrom(cs[i], rest, proofs + [Shallow(Expand(curr))]);
          r := BranchNode(cs[i := c]);
          assert Expand(r) == Expand(curr) by {
            assert Expand(r).kids == Expand(curr).kids;
          }
          ResolvableBranch(store, mode, cs, i, c);
          if found {
            ProofStep(proofs, Expand(curr), path, PathNodes(Expand(cs[i]), rest));
          }
        }
      case ExtensionNode(key, next) =>
        if key <= path {
          var c;
          c, found, proofs' := GetProofFrom(next, path[|key|..], proofs + [Shallow(Expand(curr))]);
          r := ExtensionNode(key, c);
          if found {
            ProofStep(proofs, Expand(curr), path, PathNodes(Expand(next), path[|key|..]));
          }
        }
      case HashNode(h) =>
        var n := GetFromStore(h);
        r, found, proofs' := GetProofFrom(n, path, proofs);
      case EmptyNode =>
    }

    /**
     Finds the node at `path` and replaces the hash nodes on the way. Unless `strict`, the path may
     end inside the trie: then the node is the one that holds everything below the path, and `prefix`
     is the full path to it.
     */
    method GetWithPath(curr: Node, path: Path, strict: bool) returns (r: Node, res: Option<Node>, prefix: Path)
      requires (refcount == map[] || RefsOk(refcount, store, mode)) && Resolvable(store, mode, curr)
      modifies this`refcount
      ensures RefsOk(old(refcount), store, mode) ==> RefsOk(refcount, store, mode)
      ensures old(refcount) == map[] ==> refcount == map[]
      ensures forall x: Tree :: Delta(refcount, x) == Delta(old(refcount), x)
      ensures Resolvable(store, mode, r) && Expand(r) == Expand(curr)
      ensures strict && res.Some? ==> res.value.LeafNode? && Lookup(Expand(curr), path) == Some(res.value.value)
      ensures strict && res.None? ==> Lookup(Expand(curr), path) == None
      ensures !strict && res.Some? ==>
        Resolvable(store, mode, res.value) && IsStart(Expand(curr), path, Expand(res.value), prefix)
      ensures !strict && res.None? ==> NothingBelow(Expand(curr), path)
      ensures Canonical(Expand(curr)) && res.Some? ==> Canonical(Expand(res.value)) && Expand(res.value) != Nil
      decreases Expand(curr), if curr.HashNode? then 1 else 0
    {
      r, res, prefix := curr, None, [];
      match curr
      case LeafNode(_) =>
        if path == [] {
          res := Some(curr);
        }
        StartHere(Expand(curr), path);
      case BranchNode(cs) =>
        var (i, rest) := SplitPath(path);
        if i == LAST_CHILD && !strict {
          res := Some(curr);
          StartHere(Expand(curr), path);
          return;
        }
        if i < |cs| {
          var c;
          ExpandBranch(cs);
          c, res, prefix := GetWithPath(cs[i], rest, strict);
          r := BranchNode(cs[i := c]);
          assert Expand(r).kids == Expand(curr).kids;
          if i != LAST_CHILD {
            if !strict {
              StartInBranch(ExpandAll(cs), path, if res.Some? then Expand(res.value) else Nil, prefix);
            }
            prefix := [i] + prefix;
          }
        } else {
          StartHere(Expand(curr), path);
        }
      case EmptyNode =>
      case HashNode(h) =>
        var n := GetFromStore(h);
        r, res, prefix := GetWithPath(n, path, strict);
      case ExtensionNode(key, next) =>
        if path == [] && !strict {
          res, prefix := Some(next), key;
          StartBelowKey(key, Expand(next), path);
        } else if key <= path {
          var c;
          c, res, prefix := GetWithPath(next, path[|key|..], strict);
          r := ExtensionNode(key, c);
          if !strict {
            if res.Some? {
              StartInExt(key, Expand(next), path, Expand(res.value), prefix);
            } else {
              NothingInExt(key, Expand(next), path);
            }
          }
          prefix := key + prefix;
        } else if !strict && path <= key {
          res, prefix := Some(next), key;
          StartBelowKey(key, Expand(next), path);
        } else {
          NothingOffKey(key, Expand(next), path);
        }
    }

    method Put(key: seq<Byte>, value: Option<Value>) returns (err: Option<Error>)
      requires Valid()
      modifies this`root, this`refcount
      ensures Valid()
      ensures err == if key == [] then Some(KeyIsEmpty) else if |key| > MAX_KEY_LENGTH then Some(KeyTooBig)
        else if value.Some? && |value.value| > MAX_VALUE_LENGTH then Some(ValueTooBig)
        else if value.None? then Some(ValueIsNil) else None
      ensures err.Some? ==> root == old(root) && refcount == old(refcount)
      ensures err.None? ==> IsChange(old(Expand(root)), ToNibbles(key), value, Expand(root))
    {
      if key == [] {
        return Some(KeyIsEmpty);
      } else if |key| > MAX_KEY_LENGTH {
        return Some(KeyTooBig);
      } else if value.Some? && |value.value| > MAX_VALUE_LENGTH {
        return Some(ValueTooBig);
      } else if value == None {
        return Some(ValueIsNil);
      }
      ghost var r0 := refcount;
      var r := PutIntoNode(root, ToNibbles(key), LeafNode(value.value));
      ShiftTrans(map[], r0, refcount, flushed, Expand(root), Expand(r));
      root := r;
      err := None;
    }

    method Delete(key: seq<Byte>) returns (err: Option<Error>)
      requires Valid()
      modifies this`root, this`refcount
      ensures Valid()
      ensures err == if |key| > MAX_KEY_LENGTH then Some(KeyTooBig) else None
      ensures err.Some? ==> root == old(root) && refcount == old(refcount)
      ensures err.None? ==> IsChange(old(Expand(root)), ToNibbles(key), None, Expand(root))
    {
      if |key| > MAX_KEY_LENGTH {
        return Some(KeyTooBig);
      }
      ghost var r0 := refcount;
      var r := DeleteFromNode(root, ToNibbles(key));
      ShiftTrans(map[], r0, refcount, flushed, Expand(root), Expand(r));
      root := r;
      err := None;
    }

    method PutBatch(kv: seq<KeyValue>) returns (n: nat)
      requires Valid() && Sorted(kv)
      modifies this`root, this`refcount
      ensures Valid() && n == |kv|
      ensures IsUpdate(old(Expand(root)), kv, Expand(root))
    {
      if kv == [] {
        return 0;
      }
      ghost var r0 := refcount;
      var r;
      r, n := PutBatchIntoNode(root, kv);
      ShiftTrans(map[], r0, refcount, flushed, Expand(root), Expand(r));
      root := r;
    }

    /** Writes all pending changes. That no count is negative, on which the source panics, is asserted in UpdateRefCount. */
    method Flush(index: nat)
      requires Valid()
      modifies this`store, this`refcount, this`flushed
      ensures Valid() && Clean()
      ensures flushed == Expand(root)
      ensures FlushSpec(old(store), store, mode, old(flushed), flushed, index)
      ensures Covered(store, mode, Expand(root))
    {
      ghost var store0, refs0, after := store, refcount, Expand(root);
      var todo := refcount.Keys;
      while todo != {}
        modifies this`store, this`refcount
        invariant FlushProgress(store0, refs0, store, refcount, todo, mode, flushed, after, index)
        decreases |todo|
      {
        var h :| h in todo;
        FlushEntry(store0, refs0, store, refcount, todo, mode, flushed, after, index, h);
        ghost var store1, refs1 := store, refcount;
        FlushOne(h, index, after);
        FlushStep(store0, refs0, store1, refs1, todo, mode, flushed, after, index, h, store, refcount);
        todo := todo - {h};
      }
      FlushDone(store0, store, refs0, refcount, mode, flushed, after, index);
      flushed := after;
      MatchingStoreCovers(store, mode, flushed);
      ResolvableIsProper(store0, mode, root);
      CoveredGivesResolvable(store, mode, root);
    }
    /** The body of the loop of Flush. */
    method FlushOne(h: Hash, index: nat, ghost after: Tree)
      requires EntryOk(store, refcount, mode, h, flushed, after)
      modifies this`store, this`refcount
      ensures OneFlushed(old(store), old(refcount), store, refcount, mode, h, flushed, after, index)
    {
      var node := refcount[h];
      if node.refcount != 0 {
        if mode.RC() {
          var cnt := UpdateRefCount(h, index, after);
          node := node.(initial := cnt);
        } else if node.refcount > 0 {
          store := store[h := Plain(node.bytes)];
        }
        node := node.(refcount := 0);
        refcount := if mode.RC() && node.initial == 0 then refcount - {h} else refcount[h := node];
      } else {
        refcount := refcount - {h};
      }
    }

    /** Adds the pending change to the stored count; a count of zero deletes or deactivates. */
    method UpdateRefCount(h: Hash, index: nat, ghost after: Tree) returns (cnt: int)
      requires mode.RC() && EntryOk(store, refcount, mode, h, flushed, after)
      modifies this`store
      ensures cnt == Occ(after, h.tree)
      ensures forall g :: g != h ==> ItemAt(store, g) == old(ItemAt(store, g))
      ensures ItemAt(store, h) == (
        if cnt > 0 then Some(Counted(Shallow(h.tree), true, cnt))
        else if mode.GC() then Some(Counted(Shallow(h.tree), false, index))
        else None)
    {
      var node := refcount[h];
      cnt := node.initial;
      var data := Counted(node.bytes, true, 0);
      assert HashOf(h.tree) == h;
      if cnt == 0 && h in store && (mode.GC() ==> IsActiveValue(store[h])) {
        data := store[h];
        cnt := data.tail;
      }
      cnt := cnt + node.refcount;
      assert cnt >= 0;
      if cnt == 0 {
        if !mode.GC() {
          store := store - {h};
        } else {
          store := store[h := Counted(data.bytes, false, index)];
        }
      } else {
        store := store[h := Counted(data.bytes, data.active, cnt)];
      }
    }

    /** The hash of the root, or none for the empty trie. */
    function StateRoot(): (h: Option<Hash>)
      reads this
      ensures Proper(root) ==> (h.None? <==> Expand(root) == Nil)
      ensures h.Some? ==> h.value.tree == Expand(root)
    {
      if root == EmptyNode then None else Some(HashOf(Expand(root)))
    }

    /** Compresses everything below `depth` to hash nodes; only to be called after Flush. */
    method Collapse(depth: nat)
      requires Valid() && Clean()
      modifies this`root, this`refcount
      ensures Valid() && Clean() && refcount == map[]
      ensures Expand(root) == old(Expand(root)) && CutAt(old(root), root, depth)
    {
      MatchingStoreCovers(store, mode, flushed);
      ResolvableIsProper(store, mode, root);
      root := CollapseNode(depth, root);
      CoveredGivesResolvable(store, mode, root);
      refcount := map[];
    }

    static method CollapseNode(depth: nat, node: Node) returns (r: Node)
      requires Proper(node)
      ensures Expand(r) == Expand(node) && Proper(r) && CutAt(node, r, depth)
    {
      if node.HashNode? || node.EmptyNode? {
        return node;
      }
      if depth == 0 {
        ExpandNil(node);
        return HashNode(HashOf(Expand(node)));
      }
      match node
      case BranchNode(children) =>
        var cs := children;
        var i := 0;
        while i < |cs|
          invariant 0 <= i <= |cs| == |children|
          invariant cs[i..] == children[i..]
          invariant forall j :: 0 <= j < i ==> Expand(cs[j]) == Expand(children[j]) && Proper(cs[j]) && CutAt(children[j], cs[j], depth - 1)
        {
          assert children[i] == children[i..][0] == cs[i..][0];
          var c := CollapseNode(depth - 1, children[i]);
          cs := cs[i := c];
          i := i + 1;
        }
        r := BranchNode(cs);
        ExpandBranch(cs);
        ExpandBranch(children);
        assert ExpandAll(cs) == ExpandAll(children);
        CutBranch(children, cs, depth);
      case ExtensionNode(key, next) =>
        var c := CollapseNode(depth - 1, next);
        r := ExtensionNode(key, c);
        CutExtension(key, next, c, depth);
      case _ =>
        r := node;
    }

    // ---- put ----

    /** The node that holds `val` under `path`; `newVal` says that `val` is not counted yet. */
    method NewSubTrie(path: Path, val: Node, newVal: bool) returns (r: Node)
      requires Ready(val) && Expand(val) != Nil
      requires newVal ==> val.LeafNode?
      modifies this`refcount
      ensures Ready(r) && Expand(r) == Prefixed(path, Expand(val))
      ensures Shift(old(refcount), refcount, if newVal then Nil else Expand(val), Expand(r))
    {
      ghost var r0 := refcount;
      if newVal {
        AddRef(Expand(val));
        ShiftLeafIn(r0, refcount, val.value);
      }
      if path == [] {
        return val;
      }
      ghost var r1 := refcount;
      r := ExtensionNode(path, val);
      AddRef(Expand(r));
      ShiftUnder(r1, refcount, path, Expand(val));
      ShiftTrans(r0, r1, refcount, if newVal then Nil else Expand(val), Expand(val), Expand(r));
    }

    method PutIntoLeaf(curr: Node, path: Path, val: Node) returns (r: Node)
      requires curr.LeafNode? && val.LeafNode? && Ready(curr)
      modifies this`refcount
      ensures Ready(r)
      ensures IsPut(Expand(curr), path, val.value, Expand(r))
      ensures Shift(old(refcount), refcount, Expand(curr), Expand(r))
    {
      if path == [] {
        ghost var r0 := refcount;
        RemoveRef(Expand(curr));
        ghost var r1 := refcount;
        AddRef(Expand(val));
        ShiftLeafOut(r0, r1, curr.value);
        ShiftLeafIn(r1, refcount, val.value);
        ShiftTrans(r0, r1, refcount, Expand(curr), Nil, Expand(val));
        return val;
      }
      ghost var r0 := refcount;
      var sub := NewSubTrie(path[1..], val, true);
      ghost var r1 := refcount;
      var cs := NewBranchNode()[LAST_CHILD := curr][path[0] := sub];
      ghost var kids := NoKids()[LAST_CHILD := Expand(curr)][path[0] := Expand(sub)];
      r := BranchNode(cs);
      assert Expand(r) == Branch(kids) by {
        ExpandBranch(cs);
        assert ExpandAll(cs) == kids;
      }
      AddRef(Expand(r));
      LeafSplit(curr.value, path, val.value);
      assert kids == NoKids()[path[0] := Expand(sub)][LAST_CHILD := Expand(curr)];
      ShiftPair(r0, r0, r1, refcount, LAST_CHILD, Expand(curr), Expand(curr), path[0], Expand(sub));
    }

    method PutIntoBranch(curr: Node, path: Path, val: Node) returns (r: Node)
      requires curr.BranchNode? && val.LeafNode? && Ready(curr) && Canonical(Expand(curr))
      modifies this`refcount
      ensures Ready(r)
      ensures IsPut(Expand(curr), path, val.value, Expand(r))
      ensures Shift(old(refcount), refcount, Expand(curr), Expand(r))
      decreases Expand(curr), 0, 0
    {
      var cs := curr.children;
      ExpandBranch(cs);
      var (i, rest) := SplitPath(path);
      ghost var kids := ExpandAll(cs);
      ghost var r0 := refcount;
      RemoveRef(Expand(curr));
      ghost var r1 := refcount;
      var c := PutIntoNode(cs[i], rest, val);
      ghost var r2 := refcount;
      r := BranchNode(cs[i := c]);
      assert Expand(r) == Branch(kids[i := Expand(c)]) by {
        ExpandBranch(cs[i := c]);
        ExpandUpdate(cs, i, c);
      }
      AddRef(Expand(r));
      BranchChange(kids, path, Some(val.value), Expand(c));
      StillTwo(kids, i, Expand(c));
      ShiftBranch(r0, r1, r2, refcount, kids, i, Expand(c));
      ResolvableBranch(store, mode, cs, i, c);
    }

    method PutIntoExtension(curr: Node, path: Path, val: Node) returns (r: Node)
      requires curr.ExtensionNode? && val.LeafNode? && Ready(curr) && Canonical(Expand(curr))
      modifies this`refcount
      ensures Ready(r)
      ensures IsPut(Expand(curr), path, val.value, Expand(r))
      ensures Shift(old(refcount), refcount, Expand(curr), Expand(r))
      decreases Expand(curr), 0, 0
    {
      ghost var r0 := refcount;
      RemoveRef(Expand(curr));
      ghost var r1 := refcount;
      if curr.key <= path {
        var next := PutIntoNode(curr.next, path[|curr.key|..], val);
        ghost var r2 := refcount;
        r := ExtensionNode(curr.key, next);
        AddRef(Expand(r));
        ExtChange(curr.key, Expand(curr.next), path, Some(val.value), Expand(next));
        ShiftExt(r0, r1, r2, refcount, curr.key, Expand(curr.next), Expand(next));
        return;
      }
      r := SplitExtension(curr, path, val);
    }

    /** The second half of putIntoExtension: the path leaves the extension inside its key. */
    method SplitExtension(curr: Node, path: Path, val: Node) returns (r: Node)
      requires curr.ExtensionNode? && val.LeafNode? && Ready(curr) && Canonical(Expand(curr))
      requires !(curr.key <= path)
      modifies this`refcount
      ensures Ready(r)
      ensures IsPut(Expand(curr), path, val.value, Expand(r))
      ensures Shift(old(refcount), refcount, Expand(curr.next), Expand(r))
    {
      var pref := Lcp(curr.key, path);
      var lp := |pref|;
      var keyTail, pathTail := curr.key[lp..], path[lp..];
      ghost var r0 := refcount;
      var s1 := NewSubTrie(keyTail[1..], curr.next, false);
      ghost var r1 := refcount;
      var (i, rest) := SplitPath(pathTail);
      var s2 := NewSubTrie(rest, val, true);
      ghost var r2 := refcount;
      var cs := NewBranchNode()[keyTail[0] := s1][i := s2];
      ghost var kids := NoKids()[keyTail[0] := Expand(s1)][i := Expand(s2)];
      var b := BranchNode(cs);
      assert Expand(b) == Branch(kids) by {
        ExpandBranch(cs);
        assert ExpandAll(cs) == kids;
      }
      assert Resolvable(store, mode, b) by {
        forall k | 0 <= k < |cs| ensures Resolvable(store, mode, cs[k]) {
          assert cs[k] == s1 || cs[k] == s2 || cs[k] == EmptyNode;
        }
      }
      AddRef(Expand(b));
      ghost var r3 := refcount;
      ShiftPair(r0, r1, r2, r3, keyTail[0], Expand(curr.next), Expand(s1), i, Expand(s2));
      assert keyTail[1..] == curr.key[lp + 1..];
      ExtSplit(curr.key, Expand(curr.next), path, val.value, lp);
      assert curr.key[..lp] == pref;
      r := b;
      if lp > 0 {
        r := ExtensionNode(pref, b);
        AddRef(Expand(r));
        ShiftUnder(r3, refcount, pref, Expand(b));
        ShiftTrans(r0, r3, refcount, Expand(curr.next), Expand(b), Expand(r));
      }
    }

    method PutIntoNode(curr: Node, path: Path, val: Node) returns (r: Node)
      requires val.LeafNode? && Ready(curr) && Canonical(Expand(curr))
      modifies this`refcount
      ensures Ready(r)
      ensures IsPut(Expand(curr), path, val.value, Expand(r))
      ensures Shift(old(refcount), refcount, Expand(curr), Expand(r))
      decreases Expand(curr), if curr.HashNode? then 1 else 0, 1
    {
      match curr
      case LeafNode(_) => r := PutIntoLeaf(curr, path, val);
      case BranchNode(_) => r := PutIntoBranch(curr, path, val);
      case ExtensionNode(_, _) => r := PutIntoExtension(curr, path, val);
      case HashNode(h) =>
        var n := GetFromStore(h);
        r := PutIntoNode(n, path, val);
      case EmptyNode =>
        r := NewSubTrie(path, val, true);
        EmptyPut(path, val.value);
    }

    // ---- delete ----

    /** How many children there are, and the index of the last one. */
    method CountChildren(cs: seq<Node>) returns (count: nat, index: nat)
      requires |cs| == CHILDREN_COUNT && forall i :: 0 <= i < |cs| ==> Resolvable(store, mode, cs[i])
      ensures index < CHILDREN_COUNT
      ensures count == 0 ==> forall i :: 0 <= i < |cs| ==> cs[i] == EmptyNode
      ensures count == 1 ==> cs[index] != EmptyNode && OnlyAt(ExpandAll(cs), index)
      ensures count > 1 <==> HasTwo(ExpandAll(cs))
    {
      count, index := 0, 0;
      var i := 0;
      while i < |cs|
        invariant 0 <= i <= |cs| && index < CHILDREN_COUNT
        invariant count == 0 ==> forall j :: 0 <= j < i ==> cs[j] == EmptyNode
        invariant count > 0 ==> index < i && cs[index] != EmptyNode
        invariant count == 1 ==> forall j :: 0 <= j < i && j != index ==> cs[j] == EmptyNode
        invariant count > 1 ==> exists j, k :: 0 <= j < k < i && cs[j] != EmptyNode && cs[k] != EmptyNode
      {
        if cs[i] != EmptyNode {
          index := i;
          count := count + 1;
        }
        i := i + 1;
      }
      forall j | 0 <= j < |cs| ensures cs[j] == EmptyNode <==> ExpandAll(cs)[j] == Nil {
        NilIsEmptyNode(store, mode, cs[j]);
      }
    }

    method DeleteFromBranch(curr: Node, path: Path) returns (r: Node)
      requires curr.BranchNode? && Ready(curr) && Canonical(Expand(curr))
      modifies this`refcount
      ensures Ready(r) && (r.HashNode? ==> r.hash.tree.Leaf?)
      ensures IsChange(Expand(curr), path, None, Expand(r))
      ensures Shift(old(refcount), refcount, Expand(curr), Expand(r))
      decreases Expand(curr), 0, 0
    {
      var cs := curr.children;
      ExpandBranch(cs);
      ghost var kids := ExpandAll(cs);
      ghost var r0 := refcount;
      var (i, rest) := SplitPath(path);
      var c := DeleteFromNode(cs[i], rest);
      ghost var r1 := refcount;
      RemoveRef(Expand(curr));
      ghost var r2 := refcount;
      cs := cs[i := c];
      ghost var after := kids[i := Expand(c)];
      assert ExpandAll(cs) == after;
      ResolvableBranch(store, mode, curr.children, i, c);
      BranchChange(kids, path, None, Expand(c));
      ShiftOneKid(r0, r1, kids, i, Expand(c));
      ShiftKidsDrop(r0, r1, r2, kids, after);
      var count, index := CountChildren(cs);
      if count > 1 {
        r := BranchNode(cs);
        ExpandBranch(cs);
        AddRef(Expand(r));
        return;
      }
      var _ := LastOneRemains(kids, i, Expand(c));
      r := StripAfterDelete(cs, index);
      StripCorrect(after, index);
      ShiftToOnly(r0, r2, refcount, Branch(kids), after, index, Expand(r));
    }

    /** The only child left takes the place of the branch. */
    method StripAfterDelete(cs: seq<Node>, index: nat) returns (r: Node)
      requires |cs| == CHILDREN_COUNT && index < CHILDREN_COUNT && cs[index] != EmptyNode
      requires Ready(cs[index]) && CanonicalKids(ExpandAll(cs))
      modifies this`refcount
      ensures Ready(r) && (r.HashNode? ==> r.hash.tree.Leaf?)
      ensures Expand(r) == Strip(ExpandAll(cs), index)
      ensures Shift(old(refcount), refcount, Expand(cs[index]), Expand(r))
    {
      ghost var r0 := refcount;
      var c := cs[index];
      NilIsEmptyNode(store, mode, c);
      if index == LAST_CHILD {
        return c;
      }
      if c.HashNode? {
        c := GetFromStore(c.hash);
      }
      ghost var r1 := refcount;
      if c.ExtensionNode? {
        RemoveRef(Expand(c));
        ghost var r2 := refcount;
        r := ExtensionNode([index] + c.key, c.next);
        AddRef(Expand(r));
        ShiftRekey(r1, r2, refcount, c.key, [index] + c.key, Expand(c.next));
      } else {
        r := ExtensionNode([index], c);
        AddRef(Expand(r));
        ShiftUnder(r1, refcount, [index], Expand(c));
      }
      ShiftTrans(r0, r1, refcount, Expand(cs[index]), Expand(c), Expand(r));
    }

    method DeleteFromExtension(curr: Node, path: Path) returns (r: Node)
      requires curr.ExtensionNode? && Ready(curr) && Canonical(Expand(curr))
      modifies this`refcount
      ensures Ready(r) && (r.HashNode? ==> r.hash.tree.Leaf?)
      ensures IsChange(Expand(curr), path, None, Expand(r))
      ensures Shift(old(refcount), refcount, Expand(curr), Expand(r))
      decreases Expand(curr), 0, 0
    {
      if !(curr.key <= path) {
        return curr;
      }
      ghost var r0 := refcount;
      var next := DeleteFromNode(curr.next, path[|curr.key|..]);
      ghost var r1 := refcount;
      RemoveRef(Expand(curr));
      ghost var r2 := refcount;
      ShiftDropExt(r0, r1, r2, curr.key, Expand(curr.next), Expand(next));
      ExtChange(curr.key, Expand(curr.next), path, None, Expand(next));
      MergeCorrect(curr.key, Expand(next));
      match next
      case ExtensionNode(key, below) =>
        RemoveRef(Expand(next));
        ghost var r3 := refcount;
        r := ExtensionNode(curr.key + key, below);
        AddRef(Expand(r));
        ShiftRekey(r2, r3, refcount, key, curr.key + key, Expand(below));
        ShiftTrans(r0, r2, refcount, Expand(curr), Expand(next), Expand(r));
      case EmptyNode =>
        r := EmptyNode;
      case _ =>
        r := ExtensionNode(curr.key, next);
        AddRef(Expand(r));
        ShiftUnder(r2, refcount, curr.key, Expand(next));
        ShiftTrans(r0, r2, refcount, Expand(curr), Expand(next), Expand(r));
    }

    method DeleteFromNode(curr: Node, path: Path) returns (r: Node)
      requires Ready(curr) && Canonical(Expand(curr))
      modifies this`refcount
      ensures Ready(r) && (r.HashNode? ==> r.hash.tree.Leaf?)
      ensures IsChange(Expand(curr), path, None, Expand(r))
      ensures Shift(old(refcount), refcount, Expand(curr), Expand(r))
      ensures path == [] && (Expand(curr).Nil? || Expand(curr).Leaf?) ==> Expand(r).Nil?
      decreases Expand(curr), if curr.HashNode? then 1 else 0, 1
    {
      match curr
      case LeafNode(_) =>
        if path == [] {
          ghost var r0 := refcount;
          RemoveRef(Expand(curr));
          ShiftLeafOut(r0, refcount, curr.value);
          r := EmptyNode;
        } else {
          r := curr;
        }
      case BranchNode(_) => r := DeleteFromBranch(curr, path);
      case ExtensionNode(_, _) => r := DeleteFromExtension(curr, path);
      case EmptyNode => r := EmptyNode;
      case HashNode(h) =>
        var n := GetFromStore(h);
        r := DeleteFromNode(n, path);
    }

    // ---- batch ----

    method PutBatchIntoNode(curr: Node, kv: seq<KeyValue>) returns (r: Node, n: nat)
      requires Ready(curr) && Canonical(Expand(curr)) && kv != [] && Sorted(kv)
      modifies this`refcount
      ensures Ready(r) && n == |kv|
      ensures IsUpdate(Expand(curr), kv, Expand(r))
      ensures Shift(old(refcount), refcount, Expand(curr), Expand(r))
      decreases Size(Expand(curr)) + KvSize(kv) + 1, if curr.HashNode? then 1 else 0, 6
    {
      match curr
      case LeafNode(_) => r, n := PutBatchIntoLeaf(curr, kv);
      case BranchNode(cs) =>
        ExpandBranch(cs);
        r, n := AddToBranch(cs, kv, true, 1);
      case ExtensionNode(_, _) => r, n := PutBatchIntoExtension(curr, kv);
      case HashNode(h) =>
        var node := GetFromStore(h);
        r, n := PutBatchIntoNode(node, kv);
      case EmptyNode => r, n := PutBatchIntoEmpty(kv);
    }

    method PutBatchIntoLeaf(curr: Node, kv: seq<KeyValue>) returns (r: Node, n: nat)
      requires curr.LeafNode? && Ready(curr) && kv != [] && Sorted(kv)
      modifies this`refcount
      ensures Ready(r) && n == |kv|
      ensures IsUpdate(Expand(curr), kv, Expand(r))
      ensures Shift(old(refcount), refcount, Expand(curr), Expand(r))
      decreases 1 + KvSize(kv) + 1, 0, 5
    {
      ghost var r0 := refcount;
      RemoveRef(Expand(curr));
      ghost var r1 := refcount;
      r, n := NewSubTrieMany([], kv, Some(curr.value));
      ShiftLeafOut(r0, r1, curr.value);
      ShiftTrans(r0, r1, refcount, Expand(curr), Nil, Expand(r));
      assert forall p: Path :: [] <= p && p[0..] == p;
    }

    method PutBatchIntoEmpty(kv: seq<KeyValue>) returns (r: Node, n: nat)
      requires RefsOk(refcount, store, mode) && kv != [] && Sorted(kv)
      modifies this`refcount
      ensures Ready(r) && n == |kv|
      ensures IsUpdate(Nil, kv, Expand(r))
      ensures Shift(old(refcount), refcount, Nil, Expand(r))
      decreases KvSize(kv) + 1, 0, 5
    {
      var common := LcpMany(kv);
      var stripped := StripPrefix(|common|, kv);
      StripSorted(common, kv);
      KvSizeStrip(|common|, kv);
      r, n := NewSubTrieMany(common, stripped, None);
      FromNothing(common, kv, Expand(r));
    }

    /** The subtree for `kv` below `pref`, next to the value stored there before, if any. */
    method NewSubTrieMany(pref: Path, kv: seq<KeyValue>, value: Option<Value>) returns (r: Node, n: nat)
      requires RefsOk(refcount, store, mode) && kv != [] && Sorted(kv)
      modifies this`refcount
      ensures Ready(r) && n == |kv|
      ensures IsUpdateUnder(pref, if value.Some? then Leaf(value.value) else Nil, kv, Expand(r))
      ensures Shift(old(refcount), refcount, Nil, Expand(r))
      decreases KvSize(kv) + 1, 0, 4
    {
      ghost var base := if value.Some? then Leaf(value.value) else Nil;
      if kv[0].key == [] {
        if kv[0].value == None {
          if |kv| == 1 {
            SingleUnder(pref, base, kv[0]);
            assert kv == [kv[0]];
            return EmptyNode, 1;
          }
          r, n := NewSubTrieMany(pref, kv[1..], None);
          SkipDeletion(pref, base, kv, Expand(r));
          return r, n + 1;
        }
        if |kv| == 1 {
          r := NewSubTrie(pref, LeafNode(kv[0].value.value), true);
          SingleUnder(pref, base, kv[0]);
          assert kv == [kv[0]];
          return r, 1;
        }
        r, n := NewBranchMany(pref, kv, kv[0].value);
        forall q: Path { FirstOverrides(kv, Leaf(kv[0].value.value), base, q); }
      } else {
        r, n := NewBranchMany(pref, kv, value);
      }
    }

    /** The second half of newSubTrieMany: a new branch, cut down to what is needed. */
    method NewBranchMany(pref: Path, kv: seq<KeyValue>, value: Option<Value>) returns (r: Node, n: nat)
      requires RefsOk(refcount, store, mode) && kv != [] && Sorted(kv)
      requires kv[0].key == [] ==> |kv| > 1
      modifies this`refcount
      ensures Ready(r) && n == |kv|
      ensures IsUpdateUnder(pref, if value.Some? then Leaf(value.value) else Nil, kv, Expand(r))
      ensures Shift(old(refcount), refcount, Nil, Expand(r))
      decreases KvSize(kv) + 1, 0, 3
    {
      ghost var base := if value.Some? then Leaf(value.value) else Nil;
      ghost var r0 := refcount;
      ghost var kids := NoKids()[LAST_CHILD := base];
      var cs := StartBranch(value);
      ghost var r1 := refcount;
      SizeOnly(kids, LAST_CHILD);
      var nd;
      nd, n := AddToBranch(cs, kv, false, 0);
      ghost var r2 := refcount;
      r := MergeExtension(pref, nd);
      OnlyLastChild(kids);
      MergeIsUnder(pref, base, kv, Expand(nd));
      ShiftThenKid(r0, r1, r2, Nil, kids, LAST_CHILD, Expand(nd));
      ShiftTrans(r0, r2, refcount, Nil, Expand(nd), Expand(r));
    }

    /** A branch that holds only a value, or nothing. */
    method StartBranch(value: Option<Value>) returns (cs: seq<Node>)
      requires RefsOk(refcount, store, mode)
      modifies this`refcount
      ensures RefsOk(refcount, store, mode) && |cs| == CHILDREN_COUNT
      ensures forall i :: 0 <= i < |cs| ==> Resolvable(store, mode, cs[i])
      ensures var base := if value.Some? then Leaf(value.value) else Nil;
        ExpandAll(cs) == NoKids()[LAST_CHILD := base] && Shift(old(refcount), refcount, Nil, base)
    {
      ghost var r0 := refcount;
      cs := NewBranchNode();
      if value.Some? {
        var leaf := LeafNode(value.value);
        AddRef(Expand(leaf));
        ShiftLeafIn(r0, refcount, value.value);
        cs := cs[LAST_CHILD := leaf];
      }
    }

    method MergeExtension(pref: Path, sub: Node) returns (r: Node)
      requires Ready(sub)
      modifies this`refcount
      ensures Ready(r) && Expand(r) == Merge(pref, Expand(sub))
      ensures Shift(old(refcount), refcount, Expand(sub), Expand(r))
      decreases if sub.HashNode? then 1 else 0
    {
      ghost var r0 := refcount;
      match sub
      case ExtensionNode(key, next) =>
        RemoveRef(Expand(sub));
        ghost var r1 := refcount;
        r := ExtensionNode(pref + key, next);
        AddRef(Expand(r));
        ShiftRekey(r0, r1, refcount, key, pref + key, Expand(next));
      case EmptyNode =>
        r := sub;
      case HashNode(h) =>
        var n := GetFromStore(h);
        r := MergeExtension(pref, n);
      case _ =>
        if pref != [] {
          r := ExtensionNode(pref, sub);
          AddRef(Expand(r));
          ShiftUnder(r0, refcount, pref, Expand(sub));
        } else {
          r := sub;
        }
    }

    method PutBatchIntoExtension(curr: Node, kv: seq<KeyValue>) returns (r: Node, n: nat)
      requires curr.ExtensionNode? && Ready(curr) && Canonical(Expand(curr)) && kv != [] && Sorted(kv)
      modifies this`refcount
      ensures Ready(r) && n == |kv|
      ensures IsUpdate(Expand(curr), kv, Expand(r))
      ensures Shift(old(refcount), refcount, Expand(curr), Expand(r))
      decreases Size(Expand(curr)) + KvSize(kv) + 1, 0, 5
    {
      ghost var r0 := refcount;
      ghost var next := Expand(curr.next);
      RemoveRef(Expand(curr));
      ghost var r1 := refcount;
      var common := LcpMany(kv);
      var pref := Lcp(common, curr.key);
      ghost var tail := curr.key[|pref|..];
      var stripped := StripPrefix(|pref|, kv);
      StripSorted(pref, kv);
      KvSizeStrip(|pref|, kv);
      assert curr.key == pref + tail;
      var sub;
      if |pref| == |curr.key| {
        sub, n := PutBatchIntoNode(curr.next, stripped);
        UpdateUnder(pref, next, kv, Expand(sub));
      } else {
        sub, n := PutBatchIntoExtensionNoPrefix(curr.key[|pref|..], curr.next, stripped);
        UpdateUnder(pref, Ext(tail, next), kv, Expand(sub));
        PrefixedTwice(pref, tail, next);
      }
      ghost var r2 := refcount;
      r := MergeExtension(pref, sub);
      ShiftTrans(r1, r2, refcount, next, Expand(sub), Expand(r));
      ShiftAfterDrop(r0, r1, refcount, curr.key, next, Expand(r));
    }

    method PutBatchIntoExtensionNoPrefix(key: Path, next: Node, kv: seq<KeyValue>) returns (r: Node, n: nat)
      requires Ready(next) && Canonical(Ext(key, Expand(next))) && kv != [] && Sorted(kv)
      modifies this`refcount
      ensures Ready(r) && n == |kv|
      ensures IsUpdate(Ext(key, Expand(next)), kv, Expand(r))
      ensures Shift(old(refcount), refcount, Expand(next), Expand(r))
      decreases Size(Ext(key, Expand(next))) + KvSize(kv) + 1, 0, 4
    {
      ghost var r0 := refcount;
      var c := next;
      if |key| > 1 {
        c := NewSubTrie(key[1..], next, false);
      }
      ghost var r1 := refcount;
      var cs := NewBranchNode()[key[0] := c];
      ghost var kids := NoKids()[key[0] := Prefixed(key[1..], Expand(next))];
      assert ExpandAll(cs) == kids;
      SizeOnly(kids, key[0]);
      assert kids[key[0]] != Nil;
      r, n := AddToBranch(cs, kv, false, 1);
      ExtAsBranch(key, Expand(next), kids);
      ShiftThenKid(r0, r1, refcount, Expand(next), kids, key[0], Expand(r));
    }

    /** Makes the changes child by child, then removes the branch if it is no longer needed. */
    method AddToBranch(cs: seq<Node>, kv: seq<KeyValue>, inTrie: bool, ghost extra: nat) returns (r: Node, n: nat)
      requires Ready(BranchNode(cs)) && CanonicalKids(ExpandAll(cs)) && kv != [] && Sorted(kv)
      requires extra == 0 ==> kv[0].key != [] || |kv| > 1
      requires extra > 0 ==> exists i :: 0 <= i < LAST_CHILD && ExpandAll(cs)[i] != Nil
      modifies this`refcount
      ensures Ready(r) && n == |kv|
      ensures IsUpdate(Branch(ExpandAll(cs)), kv, Expand(r))
      ensures inTrie ==> Shift(old(refcount), refcount, Branch(ExpandAll(cs)), Expand(r))
      ensures !inTrie ==> FromKids(old(refcount), refcount, ExpandAll(cs), Expand(r))
      decreases SizeAll(ExpandAll(cs)) + KvSize(kv) + extra, 0, 2
    {
      ghost var kids := ExpandAll(cs);
      ghost var r0 := refcount;
      if inTrie {
        RemoveRef(Branch(ExpandAll(cs)));
      }
      ghost var r1 := refcount;
      var b;
      b, n := IterateBatch(cs, kv, extra);
      ghost var r2 := refcount;
      r := StripBranch(b);
      KidsThenStrip(r1, r2, refcount, kids, ExpandAll(b), Expand(r));
      if inTrie {
        RemovedFromKids(r0, r1, refcount, kids, Expand(r));
      }
    }

    /** Removes a branch that has at most one child left. */
    method StripBranch(cs: seq<Node>) returns (r: Node)
      requires Ready(BranchNode(cs)) && CanonicalKids(ExpandAll(cs))
      modifies this`refcount
      ensures Ready(r) && Canonical(Expand(r))
      ensures forall p: Path :: Lookup(Expand(r), p) == Lookup(Branch(ExpandAll(cs)), p)
      ensures FromKids(old(refcount), refcount, ExpandAll(cs), Expand(r))
    {
      ghost var kids := ExpandAll(cs);
      ghost var r0 := refcount;
      var count, index := CountChildren(cs);
      if count == 0 {
        r := EmptyNode;
        forall x: Tree ensures OccAll(kids, x) == 0 == Occ(Nil, x) { OccNone(kids, x); }
        return;
      }
      if count == 1 {
        StripCorrect(kids, index);
        r := cs[index];
        if index != LAST_CHILD {
          r := MergeExtension([index], cs[index]);
        }
        forall x: Tree { OccOnly(kids, index, x); }
        return;
      }
      r := BranchNode(cs);
      ExpandBranch(cs);
      AddRef(Expand(r));
    }

    /** Hands one child its changes. */
    method PutGroup(cs: seq<Node>, c: nat, group: seq<KeyValue>) returns (b: seq<Node>, n: nat)
      requires Ready(BranchNode(cs)) && CanonicalKids(ExpandAll(cs))
      requires IsGroup(c, group) && Sorted(ForChild(c, group)) && ForChild(c, group) != []
      modifies this`refcount
      ensures Ready(BranchNode(b)) && CanonicalKids(ExpandAll(b)) && n == |group|
      ensures forall i :: 0 <= i < CHILDREN_COUNT && i != c ==> b[i] == cs[i]
      ensures forall p: Path ::
        Lookup(Branch(ExpandAll(b)), p) == Apply(group, p, Lookup(Branch(ExpandAll(cs)), p))
      ensures ShiftKids(old(refcount), refcount, ExpandAll(cs), ExpandAll(b))
      decreases Size(Expand(cs[c])) + KvSize(ForChild(c, group)) + 1, 2, 0
    {
      ghost var kids := ExpandAll(cs);
      ghost var r0 := refcount;
      var child;
      child, n := PutBatchIntoNode(cs[c], ForChild(c, group));
      b := cs[c := child];
      assert ExpandAll(b) == kids[c := Expand(child)];
      ResolvableBranch(store, mode, cs, c, child);
      BranchUpdate(kids, c, group, Expand(child));
      ShiftOneKid(r0, refcount, kids, c, Expand(child));
    }

    /** One round of iterateBatch: the leading changes that continue into the same child. */
    method NextGroup(b: seq<Node>, rest: seq<KeyValue>, ghost cs: seq<Node>, ghost done: seq<KeyValue>, ghost extra: nat)
      returns (b': seq<Node>, i: nat)
      requires Ready(BranchNode(b)) && CanonicalKids(ExpandAll(b)) && |cs| == |b|
      requires rest != [] && Sorted(done + rest)
      requires Untouched(cs, b, rest[0].key) && (done == [] ==> b == cs)
      requires done != [] ==> rest[0].key != []
      requires extra == 0 ==> (done + rest)[0].key != [] || |done + rest| > 1
      requires extra > 0 ==> exists i :: 0 <= i < LAST_CHILD && ExpandAll(cs)[i] != Nil
      modifies this`refcount
      ensures 0 < i <= |rest|
      ensures Ready(BranchNode(b')) && CanonicalKids(ExpandAll(b'))
      ensures forall p: Path ::
        Lookup(Branch(ExpandAll(b')), p) == Apply(rest[..i], p, Lookup(Branch(ExpandAll(b)), p))
      ensures ShiftKids(old(refcount), refcount, ExpandAll(b), ExpandAll(b'))
      ensures i < |rest| ==> Untouched(cs, b', rest[i].key) && rest[i].key != []
      decreases SizeAll(ExpandAll(cs)) + KvSize(done + rest) + extra, 0, 0
    {
      SortedSuffix(done, rest);
      var c;
      c, i := GetLastIndex(rest);
      GroupFits(ExpandAll(cs), done + rest, done, rest, c, i, extra);
      var n;
      b', n := PutGroup(b, c, rest[..i]);
    }

    /** Hands each child the changes that continue into it. */
    method IterateBatch(cs: seq<Node>, kv: seq<KeyValue>, ghost extra: nat) returns (b: seq<Node>, n: nat)
      requires Ready(BranchNode(cs)) && CanonicalKids(ExpandAll(cs)) && kv != [] && Sorted(kv)
      requires extra == 0 ==> kv[0].key != [] || |kv| > 1
      requires extra > 0 ==> exists i :: 0 <= i < LAST_CHILD && ExpandAll(cs)[i] != Nil
      modifies this`refcount
      ensures Ready(BranchNode(b)) && CanonicalKids(ExpandAll(b)) && n == |kv|
      ensures forall p: Path ::
        Lookup(Branch(ExpandAll(b)), p) == Apply(kv, p, Lookup(Branch(ExpandAll(cs)), p))
      ensures ShiftKids(old(refcount), refcount, ExpandAll(cs), ExpandAll(b))
      decreases SizeAll(ExpandAll(cs)) + KvSize(kv) + extra, 0, 1
    {
      ghost var kids := ExpandAll(cs);
      ghost var r0 := refcount;
      b, n := cs, 0;
      var rest := kv;
      ghost var done: seq<KeyValue> := [];
      while rest != []
        invariant Progress(cs, kv, done, rest, b) && n == |done|
        invariant Ready(BranchNode(b)) && ShiftKids(r0, refcount, kids, ExpandAll(b))
        decreases |rest|
      {
        ghost var r1 := refcount;
        ghost var before := b;
        var i;
        b, i := NextGroup(b, rest, cs, done, extra);
        KidsKids(r0, r1, refcount, kids, ExpandAll(before), ExpandAll(b));
        StepProgress(cs, kv, done, rest, before, i, b);
        n := n + i;
        done := done + rest[..i];
        rest := rest[i..];
      }
      assert done == kv;
    }
  }

  /** The longest common prefix of two keys. */
  method Lcp(a: Path, b: Path) returns (p: Path)
    ensures p <= a && p <= b
    ensures |p| < |a| && |p| < |b| ==> a[|p|] != b[|p|]
    decreases |b|
  {
    if |a| < |b| {
      p := Lcp(b, a);
      return;
    }
    var i := 0;
    while i < |b| && a[i] == b[i]
      invariant 0 <= i <= |b| && a[..i] == b[..i]
    {
      i := i + 1;
    }
    p := a[..i];
  }

  /** The longest common prefix of all keys of a batch. */
  method LcpMany(kv: seq<KeyValue>) returns (p: Path)
    requires kv != []
    ensures IsLcpMany(kv, p)
  {
    if |kv| == 1 {
      p := kv[0].key;
      return;
    }
    p := Lcp(kv[0].key, kv[1].key);
    forall q: Path | AllUnder(q, kv) ensures q <= p {
      LcpLongest(kv[0].key, kv[1].key, p, q);
    }
    var i := 2;
    if p == [] {
      return;
    }
    while i < |kv|
      invariant 2 <= i <= |kv| && AllUnder(p, kv[..i])
      invariant forall q: Path :: AllUnder(q, kv) ==> q <= p
    {
      var p' := Lcp(p, kv[i].key);
      forall q: Path | AllUnder(q, kv) ensures q <= p' {
        LcpLongest(p, kv[i].key, p', q);
      }
      p := p';
      i := i + 1;
    }
    assert kv[..i] == kv;
  }

  /** The child that the first change continues into, and how many changes go there. */
  method GetLastIndex(kv: seq<KeyValue>) returns (c: nat, i: nat)
    requires kv != [] && Sorted(kv)
    ensures 0 < i <= |kv| && IsGroup(c, kv[..i])
    ensures c == if kv[0].key == [] then LAST_CHILD else kv[0].key[0]
    ensures i < |kv| ==> Head(kv[0].key) < Head(kv[i].key)
  {
    if kv[0].key == [] {
      if |kv| > 1 { LexHead(kv[0].key, kv[1].key); }
      return LAST_CHILD, 1;
    }
    c := kv[0].key[0];
    i := 1;
    while i < |kv|
      invariant 1 <= i <= |kv|
      invariant AllUnder([c], kv[..i])
    {
      LexHead(kv[0].key, kv[i].key);
      if kv[i].key[0] != c {
        return;
      }
      i := i + 1;
    }
  }
}
