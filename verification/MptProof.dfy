/**
 Merkle proofs (pkg/core/mpt/proof.go) over an arbitrary hash function: what an accepted proof
 says about the trie with the given root, and that the proof the trie produces is accepted. The
 cryptographic assumption is explicit: no byte string of the proof collides with a node's encoding.
 */
module MptProof {
  import opened Wrappers
  import opened MptTree
  import opened MptNode
  import opened MptEncoding

  type ProofStore = map<Digest, Bytes>

  const ZERO_HASH: Digest := seq(HASH_LENGTH, i => 0)

  /** StateRoot: the zero hash for the empty trie. */
  function RootHash(hash: HashFunction, t: Tree): Digest {
    if t == Nil then ZERO_HASH else hash(Encode(hash, t))
  }

  /** The node stored under `h`; a decoded hash node takes the hash it was looked up by. */
  function GetFromStore(store: ProofStore, h: Digest): Option<Raw> {
    if h !in store then None
    else match Decode(store[h])
      case None => None
      case Some((REmpty, _)) => None
      case Some((RHash(_), _)) => Some(RHash(h))
      case Some((n, _)) => Some(n)
  }

  /**
   getWithPath in strict mode over decoded nodes. Byte lists that hash to themselves could send the
   search in circles, so `fuel` bounds the number of nodes taken from the store.
   */
  function Walk(fuel: nat, store: ProofStore, n: Raw, path: Path): Option<Bytes>
    decreases fuel, n
  {
    match n
    case RLeaf(v) => if path == [] then Some(v) else None
    case RBranch(children) =>
      var (i, rest) := SplitPath(path);
      if i < |children| then Walk(fuel, store, children[i], rest) else None
    case REmpty => None
    case RExtension(key, next) => if key <= path then Walk(fuel, store, next, path[|key|..]) else None
    case RHash(h) =>
      if fuel == 0 then None
      else match GetFromStore(store, h)
        case None => None
        case Some(node) => Walk(fuel - 1, store, node, path)
  }

  /** The later of two byte strings with the same hash wins. */
  function StoreOf(hash: HashFunction, proofs: seq<Bytes>): ProofStore {
    if proofs == [] then map[]
    else StoreOf(hash, proofs[..|proofs| - 1])[hash(proofs[|proofs| - 1]) := proofs[|proofs| - 1]]
  }

  /** The proof is accepted and yields `v`. */
  ghost predicate Accepts(hash: HashFunction, root: Digest, key: Bytes, proofs: seq<Bytes>, v: Bytes) {
    exists fuel: nat :: Walk(fuel, StoreOf(hash, proofs), RHash(root), ToNibbles(key)) == Some(v)
  }

  method VerifyProof(hash: HashFunction, root: Digest, key: Bytes, proofs: seq<Bytes>, fuel: nat) returns (r: Option<Bytes>)
    ensures r == Walk(fuel, StoreOf(hash, proofs), RHash(root), ToNibbles(key))
    ensures r.Some? ==> Accepts(hash, root, key, proofs, r.value)
  {
    var store: ProofStore := map[];
    var i := 0;
    while i < |proofs|
      invariant 0 <= i <= |proofs| && store == StoreOf(hash, proofs[..i])
    {
      assert proofs[..i + 1][..i] == proofs[..i];
      store := store[hash(proofs[i]) := proofs[i]];
      i := i + 1;
    }
    assert proofs[..i] == proofs;
    r := Walk(fuel, store, RHash(root), ToNibbles(key));
  }

  /** No string of the proof has the hash of a node of `t` without being its encoding. */
  ghost predicate NoCollision(hash: HashFunction, t: Tree, proofs: seq<Bytes>) {
    && (forall b, x: Tree :: b in proofs && Occ(t, x) > 0 && hash(b) == hash(Encode(hash, x)) ==> b == Encode(hash, x))
    && (t == Nil ==> forall b :: b in proofs ==> hash(b) != ZERO_HASH)
  }

  lemma {:induction false} StoreOfKeys(hash: HashFunction, proofs: seq<Bytes>, h: Digest)
    ensures h in StoreOf(hash, proofs) ==> StoreOf(hash, proofs)[h] in proofs && hash(StoreOf(hash, proofs)[h]) == h
    ensures (exists i :: 0 <= i < |proofs| && hash(proofs[i]) == h) ==> h in StoreOf(hash, proofs)
  {
    if proofs != [] {
      StoreOfKeys(hash, proofs[..|proofs| - 1], h);
    }
  }

  /** What the search does with a node of `t` once it has its encoding. */
  function Next(hash: HashFunction, store: ProofStore, fuel: nat, t: Tree, path: Path): Option<Bytes> {
    match t
    case Nil => None
    case Leaf(v) => if path == [] then Some(v) else None
    case Ext(key, next) =>
      if key <= path then Walk(fuel, store, RawChild(hash, next), path[|key|..]) else None
    case Branch(kids) =>
      var (i, rest) := SplitPath(path);
      if i < |kids| then Walk(fuel, store, RawChild(hash, kids[i]), rest) else None
  }

  lemma {:induction false} WalkStep(hash: HashFunction, proofs: seq<Bytes>, fuel: nat, t: Tree, path: Path)
    requires t != Nil && Bounded(t) && NoCollision(hash, t, proofs)
    ensures var store, h := StoreOf(hash, proofs), hash(Encode(hash, t));
      && (fuel > 0 && h in store ==> Walk(fuel, store, RHash(h), path) == Next(hash, store, fuel - 1, t, path))
      && (fuel == 0 || h !in store ==> Walk(fuel, store, RHash(h), path) == None)
      && (Encode(hash, t) in proofs ==> h in store)
  {
    var store, h := StoreOf(hash, proofs), hash(Encode(hash, t));
    StoreOfKeys(hash, proofs, h);
    assert Encode(hash, t) in proofs ==> h in store by {
      if Encode(hash, t) in proofs {
        var i :| 0 <= i < |proofs| && proofs[i] == Encode(hash, t);
      }
    }
    if fuel > 0 && h in store {
      assert Occ(t, t) > 0;
      assert store[h] == Encode(hash, t);
      EncodingRoundTrip(hash, t);
      assert GetFromStore(store, h) == Some(RawNode(hash, t));
    }
  }

  /** Every node on the path has its encoding among the byte strings. */
  ghost predicate PathGiven(hash: HashFunction, t: Tree, path: Path, proofs: seq<Bytes>) {
    forall x :: x in PathNodes(t, path) ==> Encode(hash, x) in proofs
  }

  /** Below a hash of `t` the search sees `t` itself, as far as it gets. */
  lemma {:induction false} WalkFollowsTree(hash: HashFunction, proofs: seq<Bytes>, fuel: nat, t: Tree, path: Path)
    requires t != Nil && Bounded(t) && NoCollision(hash, t, proofs)
    ensures var r := Walk(fuel, StoreOf(hash, proofs), RHash(hash(Encode(hash, t))), path);
      r.Some? ==> r == Lookup(t, path)
    decreases t
  {
    WalkStep(hash, proofs, fuel, t, path);
    if fuel > 0 {
      match t
      case Leaf(_) =>
      case Ext(key, next) =>
        if key <= path && next != Nil {
          NoCollisionBelow(hash, t, next, proofs);
          WalkFollowsTree(hash, proofs, fuel - 1, next, path[|key|..]);
        }
      case Branch(kids) =>
        var (i, rest) := SplitPath(path);
        if kids[i] != Nil {
          OccKidsBelow(kids, i);
          NoCollisionBelow(hash, t, kids[i], proofs);
          WalkFollowsTree(hash, proofs, fuel - 1, kids[i], rest);
        }
    }
  }

  /** It gets to a value over given nodes only. */
  lemma {:induction false} WalkNeedsPath(hash: HashFunction, proofs: seq<Bytes>, fuel: nat, t: Tree, path: Path)
    requires t != Nil && Bounded(t) && NoCollision(hash, t, proofs)
    requires Walk(fuel, StoreOf(hash, proofs), RHash(hash(Encode(hash, t))), path).Some?
    ensures PathGiven(hash, t, path, proofs)
    decreases t
  {
    WalkStep(hash, proofs, fuel, t, path);
    GivenItself(hash, proofs, t);
    match t
    case Leaf(_) =>
    case Ext(key, next) =>
      NoCollisionBelow(hash, t, next, proofs);
      WalkNeedsPath(hash, proofs, fuel - 1, next, path[|key|..]);
    case Branch(kids) =>
      var (i, rest) := SplitPath(path);
      OccKidsBelow(kids, i);
      NoCollisionBelow(hash, t, kids[i], proofs);
      WalkNeedsPath(hash, proofs, fuel - 1, kids[i], rest);
  }

  lemma GivenItself(hash: HashFunction, proofs: seq<Bytes>, t: Tree)
    requires t != Nil && NoCollision(hash, t, proofs)
    ensures hash(Encode(hash, t)) in StoreOf(hash, proofs) ==> Encode(hash, t) in proofs
  {
    StoreOfKeys(hash, proofs, hash(Encode(hash, t)));
    assert Occ(t, t) > 0;
  }

  lemma {:induction false} OccKidsBelow(kids: seq<Tree>, i: nat)
    requires i < |kids|
    ensures forall x: Tree :: Occ(kids[i], x) <= OccBelow(Branch(kids), x)
  {
    forall x: Tree ensures Occ(kids[i], x) <= OccBelow(Branch(kids), x) {
      OccKid(kids, i, x);
    }
  }

  lemma NoCollisionBelow(hash: HashFunction, t: Tree, kid: Tree, proofs: seq<Bytes>)
    requires NoCollision(hash, t, proofs) && kid != Nil
    requires forall x: Tree :: Occ(kid, x) <= OccBelow(t, x)
    ensures NoCollision(hash, kid, proofs)
  {
    forall b, x: Tree | b in proofs && Occ(kid, x) > 0 && hash(b) == hash(Encode(hash, x))
      ensures b == Encode(hash, x)
    {
      assert Occ(t, x) > 0;
    }
  }

  /** Soundness: whatever the byte lists, an accepted value is the trie's value for the key. */
  lemma {:induction false} ProofSound(hash: HashFunction, t: Tree, key: Bytes, proofs: seq<Bytes>, v: Bytes)
    requires Bounded(t) && NoCollision(hash, t, proofs)
    requires Accepts(hash, RootHash(hash, t), key, proofs, v)
    ensures Lookup(t, ToNibbles(key)) == Some(v)
  {
    var fuel: nat :| Walk(fuel, StoreOf(hash, proofs), RHash(RootHash(hash, t)), ToNibbles(key)) == Some(v);
    if t == Nil {
      StoreOfKeys(hash, proofs, ZERO_HASH);
    } else {
      WalkFollowsTree(hash, proofs, fuel, t, ToNibbles(key));
    }
  }

  function EncodeAll(hash: HashFunction, ts: seq<Tree>): (r: seq<Bytes>)
    ensures |r| == |ts| && forall i :: 0 <= i < |ts| ==> r[i] == Encode(hash, ts[i])
  {
    seq(|ts|, i requires 0 <= i < |ts| => Encode(hash, ts[i]))
  }

  /** With the encodings of the path's nodes in the store, the search reaches the leaf, one node of the store at a time. */
  lemma {:induction false} WalkSucceeds(hash: HashFunction, proofs: seq<Bytes>, fuel: nat, t: Tree, path: Path)
    requires t != Nil && Bounded(t) && NoCollision(hash, t, proofs) && Lookup(t, path).Some?
    requires PathGiven(hash, t, path, proofs) && fuel >= |PathNodes(t, path)|
    ensures Walk(fuel, StoreOf(hash, proofs), RHash(hash(Encode(hash, t))), path) == Lookup(t, path)
    decreases t
  {
    hide Encode, StoreOf, NoCollision;
    assert PathNodes(t, path)[0] == t;
    assert Encode(hash, t) in proofs;
    WalkStep(hash, proofs, fuel, t, path);
    match t
    case Leaf(_) =>
    case Ext(key, next) =>
      NoCollisionBelow(hash, t, next, proofs);
      PathBelow(hash, proofs, t, path, PathNodes(next, path[|key|..]));
      WalkSucceeds(hash, proofs, fuel - 1, next, path[|key|..]);
    case Branch(kids) =>
      var (i, rest) := SplitPath(path);
      OccKidsBelow(kids, i);
      NoCollisionBelow(hash, t, kids[i], proofs);
      PathBelow(hash, proofs, t, path, PathNodes(kids[i], rest));
      WalkSucceeds(hash, proofs, fuel - 1, kids[i], rest);
  }

  lemma PathBelow(hash: HashFunction, proofs: seq<Bytes>, t: Tree, path: Path, below: seq<Tree>)
    requires PathNodes(t, path) == [t] + below && PathGiven(hash, t, path, proofs)
    ensures forall x :: x in below ==> Encode(hash, x) in proofs
  {
    forall x | x in below ensures Encode(hash, x) in proofs {
      assert x in [t] + below;
    }
  }

  /**
   A proof is accepted for a value exactly if the trie has it for the key and every node on the path is
   given; and a search that may read as many nodes as the path has finds it then.
   */
  lemma {:induction false} AcceptedExactly(hash: HashFunction, t: Tree, key: Bytes, proofs: seq<Bytes>, v: Bytes, fuel: nat)
    requires Bounded(t) && NoCollision(hash, t, proofs)
    ensures var path := ToNibbles(key);
      && (Accepts(hash, RootHash(hash, t), key, proofs, v) <==> Lookup(t, path) == Some(v) && PathGiven(hash, t, path, proofs))
      && (fuel >= |PathNodes(t, path)| && Accepts(hash, RootHash(hash, t), key, proofs, v) ==>
          Walk(fuel, StoreOf(hash, proofs), RHash(RootHash(hash, t)), path) == Some(v))
  {
    var path, store := ToNibbles(key), StoreOf(hash, proofs);
    if Accepts(hash, RootHash(hash, t), key, proofs, v) {
      ProofSound(hash, t, key, proofs, v);
      var some: nat :| Walk(some, store, RHash(RootHash(hash, t)), path) == Some(v);
      WalkNeedsPath(hash, proofs, some, t, path);
    }
    if Lookup(t, path) == Some(v) && PathGiven(hash, t, path, proofs) {
      WalkSucceeds(hash, proofs, |PathNodes(t, path)|, t, path);
      if fuel >= |PathNodes(t, path)| { WalkSucceeds(hash, proofs, fuel, t, path); }
    }
  }

  /** Completeness: the encodings of the nodes on the path to a stored key are accepted. */
  lemma {:induction false} ProofComplete(hash: HashFunction, t: Tree, key: Bytes)
    requires Bounded(t) && Lookup(t, ToNibbles(key)).Some?
    requires NoCollision(hash, t, EncodeAll(hash, PathNodes(t, ToNibbles(key))))
    ensures Accepts(hash, RootHash(hash, t), key, EncodeAll(hash, PathNodes(t, ToNibbles(key))), Lookup(t, ToNibbles(key)).value)
  {
    var path := ToNibbles(key);
    var proofs := EncodeAll(hash, PathNodes(t, path));
    forall x | x in PathNodes(t, path) ensures Encode(hash, x) in proofs {
      var i :| 0 <= i < |PathNodes(t, path)| && PathNodes(t, path)[i] == x;
      assert proofs[i] == Encode(hash, x);
    }
    WalkSucceeds(hash, proofs, |PathNodes(t, path)|, t, path);
  }

  // ---- the byte list that stops the program ----

  /** The search comes to the encoding of the empty node, which the source does not expect in a store. */
  predicate Panics(fuel: nat, store: ProofStore, n: Raw, path: Path)
    decreases fuel, n
  {
    match n
    case RLeaf(_) => false
    case REmpty => false
    case RBranch(children) =>
      var (i, rest) := SplitPath(path);
      i < |children| && Panics(fuel, store, children[i], rest)
    case RExtension(key, next) => key <= path && Panics(fuel, store, next, path[|key|..])
    case RHash(h) =>
      && fuel > 0 && h in store
      && match Decode(store[h])
         case Some((REmpty, _)) => true
         case _ => GetFromStore(store, h).Some? && Panics(fuel - 1, store, GetFromStore(store, h).value, path)
  }

  lemma {:induction false} PanicStep(hash: HashFunction, proofs: seq<Bytes>, fuel: nat, t: Tree, path: Path)
    requires t != Nil && Bounded(t) && NoCollision(hash, t, proofs)
    ensures var store, h := StoreOf(hash, proofs), hash(Encode(hash, t));
      Panics(fuel, store, RHash(h), path) ==> fuel > 0 && Panics(fuel - 1, store, RawNode(hash, t), path)
  {
    var store, h := StoreOf(hash, proofs), hash(Encode(hash, t));
    StoreOfKeys(hash, proofs, h);
    if fuel > 0 && h in store {
      assert Occ(t, t) > 0;
      assert store[h] == Encode(hash, t);
      EncodingRoundTrip(hash, t);
      assert GetFromStore(store, h) == Some(RawNode(hash, t));
    }
  }

  /** It does not come there below the root of a trie, whatever the byte lists, unless one collides. */
  lemma {:induction false} NeverPanics(hash: HashFunction, t: Tree, proofs: seq<Bytes>, fuel: nat, path: Path)
    requires t != Nil && Bounded(t) && NoCollision(hash, t, proofs)
    ensures !Panics(fuel, StoreOf(hash, proofs), RHash(hash(Encode(hash, t))), path)
    decreases t
  {
    hide Encode, StoreOf, NoCollision;
    PanicStep(hash, proofs, fuel, t, path);
    if fuel > 0 {
      match t
      case Leaf(_) =>
      case Ext(key, next) =>
        if key <= path && next != Nil {
          NoCollisionBelow(hash, t, next, proofs);
          NeverPanics(hash, next, proofs, fuel - 1, path[|key|..]);
        }
      case Branch(kids) =>
        var (i, rest) := SplitPath(path);
        if kids[i] != Nil {
          OccKidsBelow(kids, i);
          NoCollisionBelow(hash, t, kids[i], proofs);
          NeverPanics(hash, kids[i], proofs, fuel - 1, rest);
        }
    }
  }
}
